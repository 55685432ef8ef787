/** Memory source roots and path checks: the configured roots with their aliases, the
    allow-check a requested path goes through, the canonical key a file is known by, and
    the order in which discovered files are reported. Resolving paths, walking
    directories and the filesystem's answers (inside the root, no symlink on the way,
    not a directory) are inputs. */
module MemoryPaths {
  import opened Wrappers
  import Text
  import Numbers

  const DenyError := "path not allowed"

  datatype SourceRoot = SourceRoot(alias: string, path: string)

  // ---------------------------------------------------------------------------
  // normalize_source_roots
  // ---------------------------------------------------------------------------

  /** The alias of the root at a position: the workspace first, then root1, root2, ... */
  function RootAlias(idx: nat): string {
    if idx == 0 then "workspace" else "root" + Numbers.NatToString(idx)
  }

  /** Different positions get different aliases. */
  lemma RootAliasInjective(i: nat, j: nat)
    requires i != j
    ensures RootAlias(i) != RootAlias(j)
  {
    if i != 0 && j != 0 && RootAlias(i) == RootAlias(j) {
      assert Numbers.NatToString(i) == RootAlias(i)[4..];
      assert Numbers.NatToString(j) == RootAlias(j)[4..];
      Numbers.NatToStringValue(i);
      Numbers.NatToStringValue(j);
    } else if i == 0 || j == 0 {
      var k := if i == 0 then j else i;
      var a := RootAlias(k);
      assert a[0] == 'r' && "workspace"[0] == 'w';
    }
  }

  predicate Distinct(xs: seq<string>) {
    forall i, j :: 0 <= i < j < |xs| ==> xs[i] != xs[j]
  }

  /** Appends each candidate not already present, in order. */
  function AddDistinct(roots: seq<string>, candidates: seq<string>): (r: seq<string>)
    ensures |roots| <= |r| && r[..|roots|] == roots
    ensures Distinct(roots) ==> Distinct(r)
    ensures forall x :: x in r <==> x in roots || x in candidates
    decreases |candidates|
  {
    if candidates == [] then roots
    else
      var c := candidates[0];
      var next := if c in roots then roots else roots + [c];
      var r := AddDistinct(next, candidates[1..]);
      assert r[..|roots|] == next[..|roots|];
      assert forall x :: x in candidates <==> x == c || x in candidates[1..];
      r
  }

  /** The resolved form of each configured extra root, in order. */
  function Resolved(sourceRoots: seq<string>, resolve: string -> string): (r: seq<string>)
    ensures |r| == |sourceRoots|
    ensures forall k :: 0 <= k < |r| ==> r[k] == resolve(sourceRoots[k])
    ensures forall raw :: raw in sourceRoots ==> resolve(raw) in r
  {
    var r := seq(|sourceRoots|, k requires 0 <= k < |sourceRoots| => resolve(sourceRoots[k]));
    assert forall raw :: raw in sourceRoots ==> resolve(raw) in r by {
      forall raw | raw in sourceRoots ensures resolve(raw) in r {
        var k :| 0 <= k < |sourceRoots| && sourceRoots[k] == raw;
        assert r[k] == resolve(raw);
      }
    }
    r
  }

  /** `normalize_source_roots`; `resolve` stands for `expanduser().resolve()`, and no
      extra roots is the empty list. The workspace comes first; each other root once,
      in the order first configured; nothing that was not configured. */
  function NormalizeSourceRoots(workspace: string, sourceRoots: seq<string>, resolve: string -> string)
    : (r: seq<SourceRoot>)
    ensures |r| >= 1 && r[0] == SourceRoot("workspace", resolve(workspace))
    ensures forall i :: 0 <= i < |r| ==> r[i].alias == RootAlias(i)
    ensures forall i, j :: 0 <= i < j < |r| ==> r[i].path != r[j].path
    ensures forall raw :: raw in sourceRoots ==> exists i :: 0 <= i < |r| && r[i].path == resolve(raw)
    ensures forall i :: 0 <= i < |r| ==>
              r[i].path == resolve(workspace) || r[i].path in Resolved(sourceRoots, resolve)
  {
    var candidates := Resolved(sourceRoots, resolve);
    var paths := AddDistinct([resolve(workspace)], candidates);
    var r := Labelled(paths);
    LabelledCovers(paths, sourceRoots, resolve);
    r
  }

  /** Each path with the alias of its position. */
  function Labelled(paths: seq<string>): (r: seq<SourceRoot>)
    ensures |r| == |paths|
    ensures forall i :: 0 <= i < |r| ==> r[i].alias == RootAlias(i) && r[i].path == paths[i]
  {
    seq(|paths|, i requires 0 <= i < |paths| => SourceRoot(RootAlias(i), paths[i]))
  }

  lemma LabelledCovers(paths: seq<string>, sourceRoots: seq<string>, resolve: string -> string)
    requires forall raw :: raw in sourceRoots ==> resolve(raw) in paths
    ensures forall raw :: raw in sourceRoots ==>
              exists i :: 0 <= i < |Labelled(paths)| && Labelled(paths)[i].path == resolve(raw)
  {
    var r := Labelled(paths);
    forall raw | raw in sourceRoots ensures exists i :: 0 <= i < |r| && r[i].path == resolve(raw) {
      var i :| 0 <= i < |paths| && paths[i] == resolve(raw);
      assert r[i].path == resolve(raw);
    }
  }

  // ---------------------------------------------------------------------------
  // posixpath.normpath on segment lists
  // ---------------------------------------------------------------------------

  /** A collapsed segment stack: no empty or "." segments, no separators, ".." only
      before every other segment, and none at all under an absolute path. */
  predicate Collapsed(acc: seq<string>, absolute: bool) {
    && (forall i :: 0 <= i < |acc| ==> acc[i] != "" && acc[i] != "." && '/' !in acc[i])
    && (forall i, j :: 0 <= i < j < |acc| && acc[j] == ".." ==> acc[i] == "..")
    && (absolute ==> forall i :: 0 <= i < |acc| ==> acc[i] != "..")
  }

  /** One segment of normpath's loop: skip "" and ".", pop on "..", else push. A ".." is
      kept when there is nothing to pop in a relative path, dropped at an absolute root. */
  function Push(acc: seq<string>, seg: string, absolute: bool): (r: seq<string>)
    requires Collapsed(acc, absolute) && '/' !in seg
    ensures Collapsed(r, absolute)
  {
    if seg == "" || seg == "." then acc
    else if seg != ".." then acc + [seg]
    else if |acc| > 0 && acc[|acc| - 1] != ".." then acc[..|acc| - 1]
    else if absolute then acc
    else
      assert forall i :: 0 <= i < |acc| ==> acc[i] == "..";
      acc + [seg]
  }

  function CollapseAll(acc: seq<string>, segs: seq<string>, absolute: bool): (r: seq<string>)
    requires Collapsed(acc, absolute) && forall k :: 0 <= k < |segs| ==> '/' !in segs[k]
    ensures Collapsed(r, absolute)
    decreases |segs|
  {
    if segs == [] then acc else CollapseAll(Push(acc, segs[0], absolute), segs[1..], absolute)
  }

  /** The segments of a normalised path. */
  function NormSegments(p: string): (segs: seq<string>)
    ensures Collapsed(segs, |p| > 0 && p[0] == '/')
  {
    CollapseAll([], Text.SplitOn(p, '/'), |p| > 0 && p[0] == '/')
  }

  /** `posixpath.normpath`, with one leading slash for an absolute path. */
  function NormPath(p: string): string {
    var body := Text.Join('/', NormSegments(p));
    if |p| > 0 && p[0] == '/' then "/" + body
    else if body == "" then "." else body
  }

  /** A relative normalised path that is not "." or "..", and does not start with "../",
      has no ".." segment at all: it cannot climb out of its root. */
  lemma RelativeNormPathStaysInside(p: string)
    requires !(|p| > 0 && p[0] == '/')
    requires NormPath(p) !in {"", ".", ".."} && !Text.StartsWith(NormPath(p), "../")
    ensures NormSegments(p) != []
    ensures Text.SplitOn(NormPath(p), '/') == NormSegments(p)
    ensures forall k :: 0 <= k < |NormSegments(p)| ==> NormSegments(p)[k] != ".."
  {
    var segs := NormSegments(p);
    if segs != [] {
      Text.SplitJoin(segs, '/');
    }
  }

  // ---------------------------------------------------------------------------
  // check_allowed_path
  // ---------------------------------------------------------------------------

  /** The outcome of a check. On a denial the deny message sits in the target position,
      as the source passes it there positionally. */
  datatype PathCheck = PathCheck(allowed: bool, normalized: string, target: Option<string>)

  /** `_canonical_key`: the alias is part of the key only with more than one root. */
  function CanonicalKey(root: SourceRoot, rel: string, multiRoot: bool): (k: string)
    ensures multiRoot ==> k == root.alias + ":" + rel
    ensures !multiRoot ==> k == rel
  {
    if multiRoot then root.alias + ":" + rel else rel
  }

  /** Backslashes become forward slashes. */
  function ForwardSlashes(s: string): (r: string)
    ensures |r| == |s| && '\\' !in r
    ensures forall i :: 0 <= i < |s| ==> r[i] == if s[i] == '\\' then '/' else s[i]
  {
    seq(|s|, i requires 0 <= i < |s| => if s[i] == '\\' then '/' else s[i])
  }

  /** The text before the first occurrence of `c`, or all of it. */
  function Before(s: string, c: char): (p: string)
    ensures |p| <= |s| && p == s[..|p|] && c !in p
    ensures |p| < |s| ==> s[|p|] == c
    ensures c !in s ==> p == s
    decreases |s|
  {
    if |s| == 0 || s[0] == c then "" else [s[0]] + Before(s[1..], c)
  }

  /** The first root with the alias, if any. */
  function FindAlias(roots: seq<SourceRoot>, alias: string): (r: Option<nat>)
    ensures r.Some? ==> r.value < |roots| && roots[r.value].alias == alias
                        && forall j :: 0 <= j < r.value ==> roots[j].alias != alias
    ensures r.None? ==> forall j :: 0 <= j < |roots| ==> roots[j].alias != alias
    decreases |roots|
  {
    if |roots| == 0 then None
    else if roots[0].alias == alias then Some(0)
    else match FindAlias(roots[1..], alias)
      case None => None
      case Some(k) => Some(k + 1)
  }

  /** The root a request selects and the path under it: "alias:rest" picks the aliased
      root; otherwise the whole text, colon included, is under the first root. */
  function SelectRoot(roots: seq<SourceRoot>, text: string): (r: (nat, string))
    requires |roots| >= 1
    ensures r.0 < |roots|
    ensures ':' !in text ==> r == (0, text)
  {
    var alias := Before(text, ':');
    if |alias| == |text| then (0, text)
    else match FindAlias(roots, alias)
      case None => (0, text)
      case Some(k) => (k, text[|alias| + 1..])
  }

  /** The filesystem's verdict on `norm` under a root path: inside the root, no symlink
      on the way, and not something other than a file. */
  type FsSafe = (string, string) -> bool

  /** `root / norm`: an absolute `norm` replaces the root. */
  function JoinUnder(root: string, norm: string): string {
    if |norm| > 0 && norm[0] == '/' then norm else root + "/" + norm
  }

  /** The text a request is checked as: trimmed, with forward slashes. */
  function RequestText(rawPath: string): (text: string)
    ensures '\\' !in text
  {
    ForwardSlashes(Text.Strip(rawPath))
  }

  /** `check_allowed_path`. */
  function CheckAllowedPath(roots: seq<SourceRoot>, rawPath: string, safe: FsSafe): (r: PathCheck)
    requires |roots| >= 1
    // blank or absolute requests are denied outright
    ensures RequestText(rawPath) == "" ==> r == PathCheck(false, "", Some(DenyError))
    ensures RequestText(rawPath) != "" && RequestText(rawPath)[0] == '/' ==>
              r == PathCheck(false, RequestText(rawPath), Some(DenyError))
    // otherwise the selected path is normalised and must be a markdown file inside its root
    ensures RequestText(rawPath) != "" && RequestText(rawPath)[0] != '/' ==>
              var (idx, rel) := SelectRoot(roots, RequestText(rawPath));
              var norm := NormPath(rel);
              && (Denied(roots[idx].path, norm, safe) ==> r == PathCheck(false, norm, Some(DenyError)))
              && (r.allowed ==> r == PathCheck(true, CanonicalKey(roots[idx], norm, |roots| > 1),
                                               Some(JoinUnder(roots[idx].path, norm))))
  {
    var text := RequestText(rawPath);
    if text == "" then PathCheck(false, "", Some(DenyError))
    else if text[0] == '/' then PathCheck(false, text, Some(DenyError))
    else
      var (idx, rel) := SelectRoot(roots, text);
      var norm := NormPath(rel);
      if norm in {"", ".", ".."} || Text.StartsWith(norm, "../") then PathCheck(false, norm, Some(DenyError))
      else if !Text.EndsWith(norm, ".md") then PathCheck(false, norm, Some(DenyError))
      else if !safe(roots[idx].path, norm) then PathCheck(false, norm, Some(DenyError))
      else PathCheck(true, CanonicalKey(roots[idx], norm, |roots| > 1), Some(JoinUnder(roots[idx].path, norm)))
  }

  /** Why a normalised relative path is refused under a root: it names the root itself
      or its parent, climbs out, is not markdown, or fails the filesystem checks. */
  predicate Denied(rootPath: string, norm: string, safe: FsSafe) {
    || norm in {"", ".", ".."} || Text.StartsWith(norm, "../")
    || !Text.EndsWith(norm, ".md") || !safe(rootPath, norm)
  }

  /** Every relative request that none of the denials applies to is allowed, so with
      the contract of `CheckAllowedPath` a relative request is allowed exactly when it is
      not denied. */
  lemma NotDeniedIsAllowed(roots: seq<SourceRoot>, rawPath: string, safe: FsSafe)
    requires |roots| >= 1
    requires RequestText(rawPath) != "" && RequestText(rawPath)[0] != '/'
    requires var (idx, rel) := SelectRoot(roots, RequestText(rawPath));
             !Denied(roots[idx].path, NormPath(rel), safe)
    ensures CheckAllowedPath(roots, rawPath, safe).allowed
  {
  }

  /** An allowed request names a markdown file and, when relative, never climbs out of
      its root. */
  lemma AllowedIsMarkdownInside(roots: seq<SourceRoot>, rawPath: string, safe: FsSafe)
    requires |roots| >= 1 && CheckAllowedPath(roots, rawPath, safe).allowed
    ensures var (idx, rel) := SelectRoot(roots, RequestText(rawPath));
            && Text.EndsWith(NormPath(rel), ".md")
            && (!(|rel| > 0 && rel[0] == '/') ==>
                  forall k :: 0 <= k < |NormSegments(rel)| ==> NormSegments(rel)[k] != "..")
  {
    var (idx, rel) := SelectRoot(roots, RequestText(rawPath));
    if !(|rel| > 0 && rel[0] == '/') {
      RelativeNormPathStaysInside(rel);
    }
  }

  /** "alias:rest" with a configured alias selects that root and checks `rest`. */
  lemma AliasSelectsRoot(roots: seq<SourceRoot>, k: nat, rest: string)
    requires k < |roots| && ':' !in roots[k].alias
    requires forall j :: 0 <= j < k ==> roots[j].alias != roots[k].alias
    ensures SelectRoot(roots, roots[k].alias + ":" + rest) == (k, rest)
  {
    var text := roots[k].alias + ":" + rest;
    var alias := Before(text, ':');
    BeforeSeparated(roots[k].alias, ':', rest);
    assert text[|alias| + 1..] == rest;
  }

  lemma {:induction false} BeforeSeparated(a: string, c: char, b: string)
    requires c !in a
    ensures Before(a + [c] + b, c) == a
    decreases |a|
  {
    if |a| > 0 {
      assert a[0] in a;
      assert (a + [c] + b)[1..] == a[1..] + [c] + b;
      BeforeSeparated(a[1..], c, b);
    }
  }

  /** Text whose part before the colon is no alias is a path under the first root,
      colon and all. */
  lemma UnknownAliasUsesFirstRoot(roots: seq<SourceRoot>, text: string)
    requires |roots| >= 1
    requires forall j :: 0 <= j < |roots| ==> roots[j].alias != Before(text, ':')
    ensures SelectRoot(roots, text) == (0, text)
  {
  }

  // ---------------------------------------------------------------------------
  // discover_markdown_files: filtering, first-seen dedupe, and the order by key
  // ---------------------------------------------------------------------------

  /** A file a walk came across: its path relative to the root, its resolved absolute
      path, and whether it is a regular file inside the root with no symlink on the way. */
  datatype WalkedFile = WalkedFile(rel: string, absPath: string, regular: bool)

  datatype DiscoveredFile = DiscoveredFile(key: string, rel: string, absPath: string, root: SourceRoot)

  predicate Le(a: string, b: string) {
    a == b || Text.Lt(a, b)
  }

  predicate SortedByKey(xs: seq<DiscoveredFile>) {
    forall i, j :: 0 <= i < j < |xs| ==> Le(xs[i].key, xs[j].key)
  }

  predicate DistinctAbs(xs: seq<DiscoveredFile>) {
    forall i, j :: 0 <= i < j < |xs| ==> xs[i].absPath != xs[j].absPath
  }

  /** Insertion of one file into a sorted list, before the files with an equal key, so
      that inserting from the back keeps equal keys in their input order. */
  function Insert(f: DiscoveredFile, xs: seq<DiscoveredFile>): (r: seq<DiscoveredFile>)
    ensures multiset(r) == multiset(xs) + multiset{f}
    decreases |xs|
  {
    if xs == [] || !Text.Lt(xs[0].key, f.key) then [f] + xs
    else
      assert xs == [xs[0]] + xs[1..];
      [xs[0]] + Insert(f, xs[1..])
  }

  lemma {:induction false} InsertSorted(f: DiscoveredFile, xs: seq<DiscoveredFile>)
    requires SortedByKey(xs)
    ensures SortedByKey(Insert(f, xs))
    decreases |xs|
  {
    if xs != [] {
      if !Text.Lt(xs[0].key, f.key) {
        Text.LtTotal(f.key, xs[0].key);
        forall j | 0 <= j < |xs|
          ensures Le(f.key, xs[j].key)
        {
          if xs[j].key != xs[0].key && f.key != xs[0].key { Text.LtTransitive(f.key, xs[0].key, xs[j].key); }
        }
      } else {
        var rest := Insert(f, xs[1..]);
        InsertSorted(f, xs[1..]);
        assert xs == [xs[0]] + xs[1..];
        forall j | 0 <= j < |rest|
          ensures Le(xs[0].key, rest[j].key)
        {
          assert rest[j] in multiset(rest);
          assert rest[j] == f || rest[j] in multiset(xs[1..]);
        }
      }
    }
  }

  lemma {:induction false} InsertDistinct(f: DiscoveredFile, xs: seq<DiscoveredFile>)
    requires DistinctAbs(xs) && forall i :: 0 <= i < |xs| ==> xs[i].absPath != f.absPath
    ensures DistinctAbs(Insert(f, xs))
    decreases |xs|
  {
    if xs != [] && Text.Lt(xs[0].key, f.key) {
      var rest := Insert(f, xs[1..]);
      InsertDistinct(f, xs[1..]);
      assert xs == [xs[0]] + xs[1..];
      forall j | 0 <= j < |rest|
        ensures xs[0].absPath != rest[j].absPath
      {
        assert rest[j] in multiset(rest);
        if rest[j] != f {
          assert rest[j] in multiset(xs[1..]);
          var m :| 0 <= m < |xs[1..]| && xs[1..][m] == rest[j];
          assert xs[m + 1] == rest[j];
        }
      }
    }
  }

  /** `discovered.sort(key=...)`: a stable sort by key, by insertion from the back. */
  function SortByKey(xs: seq<DiscoveredFile>): (r: seq<DiscoveredFile>)
    ensures multiset(r) == multiset(xs)
    decreases |xs|
  {
    if xs == [] then []
    else
      assert xs == [xs[0]] + xs[1..];
      Insert(xs[0], SortByKey(xs[1..]))
  }

  lemma {:induction false} SortByKeyDistinct(xs: seq<DiscoveredFile>)
    requires DistinctAbs(xs)
    ensures DistinctAbs(SortByKey(xs))
    decreases |xs|
  {
    if xs != [] {
      var rest := SortByKey(xs[1..]);
      SortByKeyDistinct(xs[1..]);
      forall i | 0 <= i < |rest|
        ensures rest[i].absPath != xs[0].absPath
      {
        assert rest[i] in multiset(rest);
        assert rest[i] in multiset(xs[1..]);
        var m :| 0 <= m < |xs[1..]| && xs[1..][m] == rest[i];
        assert xs[m + 1] == rest[i];
      }
      InsertDistinct(xs[0], rest);
    }
  }

  lemma {:induction false} SortByKeySorted(xs: seq<DiscoveredFile>)
    ensures SortedByKey(SortByKey(xs))
    decreases |xs|
  {
    if xs != [] {
      SortByKeySorted(xs[1..]);
      InsertSorted(xs[0], SortByKey(xs[1..]));
    }
  }

  /** The walk's markdown files that pass the regular-file check, each absolute path
      kept the first time only, keyed canonically. */
  function Gather(walk: seq<(SourceRoot, WalkedFile)>, seen: set<string>, multiRoot: bool)
    : (r: seq<DiscoveredFile>)
    ensures DistinctAbs(r)
    ensures forall i :: 0 <= i < |r| ==> r[i].absPath !in seen
    decreases |walk|
  {
    if walk == [] then []
    else
      var f := walk[0].1;
      if Kept(walk[0]) && f.absPath !in seen then
        var rest := Gather(walk[1..], seen + {f.absPath}, multiRoot);
        var r := [Found(walk[0], multiRoot)] + rest;
        assert forall i :: 1 <= i < |r| ==> r[i] == rest[i - 1];
        r
      else
        Gather(walk[1..], seen, multiRoot)
  }

  /** `d` is what the walk reports for one of its kept files. */
  ghost predicate FromWalk(walk: seq<(SourceRoot, WalkedFile)>, d: DiscoveredFile, multiRoot: bool) {
    exists k :: 0 <= k < |walk| && Kept(walk[k]) && Found(walk[k], multiRoot) == d
  }

  /** Some file of `r` has this absolute path. */
  ghost predicate Reported(r: seq<DiscoveredFile>, absPath: string) {
    exists i :: 0 <= i < |r| && r[i].absPath == absPath
  }

  /** Everything gathered is a kept file of the walk, keyed canonically. */
  lemma {:induction false} GatherSound(walk: seq<(SourceRoot, WalkedFile)>, seen: set<string>, multiRoot: bool)
    ensures forall d :: d in Gather(walk, seen, multiRoot) ==> FromWalk(walk, d, multiRoot)
    decreases |walk|
  {
    if walk != [] {
      var r := Gather(walk, seen, multiRoot);
      var f := walk[0].1;
      var taken := Kept(walk[0]) && f.absPath !in seen;
      var seen' := if taken then seen + {f.absPath} else seen;
      var rest := Gather(walk[1..], seen', multiRoot);
      assert r == if taken then [Found(walk[0], multiRoot)] + rest else rest;
      GatherSound(walk[1..], seen', multiRoot);
      forall d | d in r
        ensures FromWalk(walk, d, multiRoot)
      {
        if taken && d == Found(walk[0], multiRoot) {
          assert Kept(walk[0]) && Found(walk[0], multiRoot) == d;
        } else {
          assert d in rest;
          var k :| 0 <= k < |walk[1..]| && Kept(walk[1..][k]) && Found(walk[1..][k], multiRoot) == d;
          assert walk[k + 1] == walk[1..][k];
        }
      }
    }
  }

  /** Every kept file of the walk is gathered, unless its path was already seen. */
  lemma {:induction false} GatherComplete(walk: seq<(SourceRoot, WalkedFile)>, seen: set<string>, multiRoot: bool)
    ensures var r := Gather(walk, seen, multiRoot);
            forall k :: 0 <= k < |walk| && Kept(walk[k]) ==> walk[k].1.absPath in seen || Reported(r, walk[k].1.absPath)
    decreases |walk|
  {
    if walk != [] {
      var r := Gather(walk, seen, multiRoot);
      var f := walk[0].1;
      var taken := Kept(walk[0]) && f.absPath !in seen;
      var seen' := if taken then seen + {f.absPath} else seen;
      var rest := Gather(walk[1..], seen', multiRoot);
      assert r == if taken then [Found(walk[0], multiRoot)] + rest else rest;
      GatherComplete(walk[1..], seen', multiRoot);
      forall k | 0 <= k < |walk| && Kept(walk[k]) && walk[k].1.absPath !in seen
        ensures Reported(r, walk[k].1.absPath)
      {
        if k == 0 || (taken && walk[k].1.absPath == f.absPath) {
          assert r[0].absPath == walk[k].1.absPath;
        } else {
          assert walk[1..][k - 1] == walk[k];
          assert Reported(rest, walk[k].1.absPath);
          var i :| 0 <= i < |rest| && rest[i].absPath == walk[k].1.absPath;
          var j := if taken then i + 1 else i;
          assert r[j] == rest[i];
        }
      }
    }
  }

  predicate Kept(w: (SourceRoot, WalkedFile)) {
    Text.EndsWith(w.1.rel, ".md") && w.1.regular
  }

  function Found(w: (SourceRoot, WalkedFile), multiRoot: bool): DiscoveredFile {
    DiscoveredFile(CanonicalKey(w.0, w.1.rel, multiRoot), w.1.rel, w.1.absPath, w.0)
  }

  /** Each root with the files its walk yielded, roots in order. */
  function Flatten(roots: seq<SourceRoot>, walks: seq<seq<WalkedFile>>): (r: seq<(SourceRoot, WalkedFile)>)
    requires |walks| == |roots|
    decreases |roots|
  {
    if roots == [] then []
    else seq(|walks[0]|, k requires 0 <= k < |walks[0]| => (roots[0], walks[0][k])) + Flatten(roots[1..], walks[1..])
  }

  /** `discover_markdown_files`: every kept markdown file at most once per absolute path,
      sorted by canonical key. */
  function DiscoverMarkdownFiles(roots: seq<SourceRoot>, walks: seq<seq<WalkedFile>>): (r: seq<DiscoveredFile>)
    requires |walks| == |roots|
    ensures SortedByKey(r) && DistinctAbs(r)
    ensures multiset(r) == multiset(Gather(Flatten(roots, walks), {}, |roots| > 1))
  {
    var gathered := Gather(Flatten(roots, walks), {}, |roots| > 1);
    SortByKeySorted(gathered);
    SortByKeyDistinct(gathered);
    SortByKey(gathered)
  }

  /** What discovery reports is exactly the kept files of the walks: each reported file
      is one of them keyed canonically, and each of them is reported under its path. */
  lemma DiscoverReportsKeptFiles(roots: seq<SourceRoot>, walks: seq<seq<WalkedFile>>)
    requires |walks| == |roots|
    ensures var walk := Flatten(roots, walks);
            var r := DiscoverMarkdownFiles(roots, walks);
            && (forall i :: 0 <= i < |r| ==> FromWalk(walk, r[i], |roots| > 1))
            && (forall k :: 0 <= k < |walk| && Kept(walk[k]) ==> Reported(r, walk[k].1.absPath))
  {
    var walk := Flatten(roots, walks);
    var g := Gather(walk, {}, |roots| > 1);
    var r := DiscoverMarkdownFiles(roots, walks);
    GatherSound(walk, {}, |roots| > 1);
    GatherComplete(walk, {}, |roots| > 1);
    SameMembers(r, g);
    forall i | 0 <= i < |r|
      ensures FromWalk(walk, r[i], |roots| > 1)
    {
      assert r[i] in g;
    }
    forall k | 0 <= k < |walk| && Kept(walk[k])
      ensures Reported(r, walk[k].1.absPath)
    {
      assert Reported(g, walk[k].1.absPath);
      var j :| 0 <= j < |g| && g[j].absPath == walk[k].1.absPath;
      assert g[j] in r;
      var i :| 0 <= i < |r| && r[i] == g[j];
    }
  }

  /** Two orderings of the same multiset hold the same files. */
  lemma SameMembers(r: seq<DiscoveredFile>, g: seq<DiscoveredFile>)
    requires multiset(r) == multiset(g)
    ensures forall d :: d in r <==> d in g
  {
    forall d ensures d in r <==> d in g {
      assert d in r <==> d in multiset(r);
      assert d in g <==> d in multiset(g);
    }
  }
}
