/** Reading a git patch line by line (`_parse_patch` in scripts/check_canonical_ndt_convergence.py). */
module Patch {
  import opened Sequences
  import opened Text

  datatype Error = Binary | Rename(left: string, right: string) | BadPath(path: string) | DuplicatePath(path: string)
                 | HunkBeforeHeader | NoPaths
  datatype Result<+T> = Ok(value: T) | Err(error: Error)

  // ---------- recognisers ----------

  const HEADER: string := "diff --git a/"
  const SEPARATOR: string := " b/"
  const HUNK: string := "@@ "
  const BINARY_MARK: string := "GIT binary patch"

  datatype HeaderMatch = NoMatch | Groups(left: string, right: string)

  /** The greedy split `(.+) b/(.+)`: the last separator with something on both sides, at or before k. */
  function LastSplit(rest: string, k: int): HeaderMatch
    decreases k
  {
    if k < 1 then NoMatch
    else if k + 3 < |rest| && rest[k..k + 3] == SEPARATOR then Groups(rest[..k], rest[k + 3..])
    else LastSplit(rest, k - 1)
  }

  /** `PATCH_HEADER.match(line)`. */
  function MatchHeader(line: string): HeaderMatch {
    if StartsWith(line, HEADER) then LastSplit(line[|HEADER|..], |line|) else NoMatch
  }

  /** The parts of a path between slashes. */
  function Components(path: string): (cs: seq<string>)
    ensures cs != []
  {
    if path == "" then [""]
    else
      var rest := Components(path[1..]);
      if path[0] == '/' then [""] + rest else [[path[0]] + rest[0]] + rest[1..]
  }

  /** `_validate_repo_path`: relative, normalised, without `..`. */
  predicate ValidPath(path: string) {
    && path != ""
    && '\\' !in path && '\n' !in path && '\r' !in path
    && (path == "." || forall c :: c in Components(path) ==> c != "" && c != "." && c != "..")
  }

  // ---------- the parser ----------

  datatype State = State(
    paths: seq<string>, added: map<string, seq<string>>, deleted: map<string, seq<string>>,
    current: string, inHunk: bool)
  {
    /** Every path read so far has its two lists, and the current one is the last path. */
    ghost predicate Valid() {
      && (forall p :: p in added <==> p in paths)
      && (forall p :: p in deleted <==> p in paths)
      && (inHunk ==> paths != [])
      && (paths != [] ==> current == paths[|paths| - 1])
    }
  }

  const START := State([], map[], map[], "", false)

  /** A changed line: it begins with the sign, but not with the three signs of a file marker. */
  predicate IsMarked(line: string, sign: char) { StartsWith(line, [sign]) && !StartsWith(line, [sign, sign, sign]) }

  /** What one line does. */
  function Step(st: State, line: string): (r: Result<State>)
    requires st.Valid()
    ensures r.Ok? ==> r.value.Valid()
  {
    var header := MatchHeader(line);
    if header.Groups? then
      if header.left != header.right then Err(Rename(header.left, header.right))
      else if !ValidPath(header.left) then Err(BadPath(header.left))
      else if header.left in st.added then Err(DuplicatePath(header.left))
      else
        var p := header.left;
        assert forall q :: q in st.paths + [p] <==> q in st.paths || q == p;
        Ok(State(st.paths + [p], st.added[p := []], st.deleted[p := []], p, false))
    else if StartsWith(line, HUNK) then
      if st.paths == [] then Err(HunkBeforeHeader) else Ok(st.(inHunk := true))
    else if !st.inHunk then Ok(st)
    else if IsMarked(line, '+') then Ok(st.(added := st.added[st.current := st.added[st.current] + [line[1..]]]))
    else if IsMarked(line, '-') then Ok(st.(deleted := st.deleted[st.current := st.deleted[st.current] + [line[1..]]]))
    else Ok(st)
  }

  function Run(st: State, lines: seq<string>): (r: Result<State>)
    requires st.Valid()
    ensures r.Ok? ==> r.value.Valid()
    decreases lines
  {
    if lines == [] then Ok(st)
    else
      match Step(st, lines[0])
      case Err(e) => Err(e)
      case Ok(next) => Run(next, lines[1..])
  }

  datatype Parsed = Parsed(
    paths: seq<string>, added: map<string, seq<string>>, deleted: map<string, seq<string>>,
    additions: nat, deletions: nat)

  function TotalLines(paths: seq<string>, lists: map<string, seq<string>>): nat
    requires forall p :: p in paths ==> p in lists
  {
    if paths == [] then 0 else |lists[paths[0]]| + TotalLines(paths[1..], lists)
  }

  predicate IsBinary(content: string) { Contains(content, BINARY_MARK) || '\0' in content }

  function Parse(content: string): Result<Parsed> {
    if IsBinary(content) then Err(Binary)
    else
      match Run(START, SplitLines(content))
      case Err(e) => Err(e)
      case Ok(st) =>
        if st.paths == [] then Err(NoPaths)
        else Ok(Parsed(st.paths, st.added, st.deleted, TotalLines(st.paths, st.added), TotalLines(st.paths, st.deleted)))
  }

  /** The line loop with its variables, as written. */
  method ParsePatch(content: string) returns (r: Result<Parsed>)
    ensures r == Parse(content)
  {
    if IsBinary(content) { return Err(Binary); }
    var paths: seq<string>, added: map<string, seq<string>>, deleted: map<string, seq<string>> := [], map[], map[];
    var current, inHunk := "", false;
    var lines := SplitLines(content);
    var n := 0;
    while n < |lines|
      invariant n <= |lines|
      invariant State(paths, added, deleted, current, inHunk).Valid()
      invariant Run(START, lines) == Run(State(paths, added, deleted, current, inHunk), lines[n..])
    {
      var line := lines[n];
      assert lines[n..][0] == line && lines[n..][1..] == lines[n + 1..];
      ghost var before := State(paths, added, deleted, current, inHunk);
      n := n + 1;
      match MatchHeader(line)
      case Groups(left, right) =>
        if left != right { return Err(Rename(left, right)); }
        if !ValidPath(left) { return Err(BadPath(left)); }
        if left in added { return Err(DuplicatePath(left)); }
        current := left;
        paths, added, deleted := paths + [left], added[left := []], deleted[left := []];
        inHunk := false;
        assert Step(before, line) == Ok(State(paths, added, deleted, current, inHunk));
      case NoMatch =>
        if StartsWith(line, HUNK) {
          if paths == [] { return Err(HunkBeforeHeader); }
          inHunk := true;
        } else if inHunk {
          if IsMarked(line, '+') {
            added := added[current := added[current] + [line[1..]]];
          } else if IsMarked(line, '-') {
            deleted := deleted[current := deleted[current] + [line[1..]]];
          }
        }
        assert Step(before, line) == Ok(State(paths, added, deleted, current, inHunk));
    }
    if paths == [] { return Err(NoPaths); }
    var additions, deletions := 0, 0;
    for i := 0 to |paths|
      invariant additions + TotalLines(paths[i..], added) == TotalLines(paths, added)
      invariant deletions + TotalLines(paths[i..], deleted) == TotalLines(paths, deleted)
    {
      additions, deletions := additions + |added[paths[i]]|, deletions + |deleted[paths[i]]|;
    }
    return Ok(Parsed(paths, added, deleted, additions, deletions));
  }

  // ---------- what every accepted patch is like ----------

  /** A text taken from a changed line: no break inside, and not the rest of a file marker. */
  predicate IsClean(text: string, sign: char) { Unbroken(text) && !StartsWith(text, [sign, sign]) }

  ghost predicate AllClean(lists: map<string, seq<string>>, sign: char) {
    forall p, t :: p in lists && t in lists[p] ==> IsClean(t, sign)
  }

  ghost predicate IsSound(st: State) {
    && (forall i, j :: 0 <= i < j < |st.paths| ==> st.paths[i] != st.paths[j])
    && (forall p :: p in st.paths ==> ValidPath(p) && Unbroken(p))
    && AllClean(st.added, '+') && AllClean(st.deleted, '-')
  }

  lemma PrefixShifts(c: char, text: string, prefix: string)
    ensures StartsWith([c] + text, [c] + prefix) <==> StartsWith(text, prefix)
  {
    if StartsWith([c] + text, [c] + prefix) {
      assert forall i :: 0 <= i < |prefix| ==> prefix[i] == ([c] + prefix)[i + 1] == ([c] + text)[i + 1] == text[i];
    }
  }

  /** A line made of the sign and a text is a changed line exactly when the text does not go on like a marker. */
  lemma SignedLine(text: string, sign: char)
    ensures IsMarked([sign] + text, sign) <==> !StartsWith(text, [sign, sign])
    ensures ([sign] + text)[1..] == text
  {
    PrefixShifts(sign, text, [sign, sign]);
    assert [sign] + [sign, sign] == [sign, sign, sign];
  }

  lemma MarkedTextIsClean(line: string, sign: char)
    requires Unbroken(line) && IsMarked(line, sign)
    ensures IsClean(line[1..], sign)
  {
    assert line == [sign] + line[1..];
    SignedLine(line[1..], sign);
    assert forall c :: c in line[1..] ==> c in line;
  }

  lemma {:induction false} LastSplitIsPart(rest: string, k: int)
    requires LastSplit(rest, k).Groups?
    ensures exists m :: 0 <= m <= |rest| && LastSplit(rest, k).left == rest[..m]
    decreases k
  {
    if k + 3 < |rest| && rest[k..k + 3] == SEPARATOR {
    } else {
      LastSplitIsPart(rest, k - 1);
    }
  }

  lemma HeaderPathIsUnbroken(line: string)
    requires Unbroken(line) && MatchHeader(line).Groups?
    ensures Unbroken(MatchHeader(line).left)
  {
    var rest := line[|HEADER|..];
    LastSplitIsPart(rest, |line|);
    var m :| 0 <= m <= |rest| && MatchHeader(line).left == rest[..m];
    assert forall c :: c in rest[..m] ==> c in line;
  }

  lemma AppendedIsClean(lists: map<string, seq<string>>, p: string, text: string, sign: char)
    requires AllClean(lists, sign) && IsClean(text, sign) && p in lists
    ensures AllClean(lists[p := lists[p] + [text]], sign)
  {
  }

  lemma StepKeepsSound(st: State, line: string)
    requires st.Valid() && IsSound(st) && Unbroken(line)
    ensures Step(st, line).Ok? ==> IsSound(Step(st, line).value)
  {
    if MatchHeader(line).Groups? {
      HeaderPathIsUnbroken(line);
    } else if st.inHunk && !StartsWith(line, HUNK) {
      if IsMarked(line, '+') {
        MarkedTextIsClean(line, '+');
        AppendedIsClean(st.added, st.current, line[1..], '+');
      } else if IsMarked(line, '-') {
        MarkedTextIsClean(line, '-');
        AppendedIsClean(st.deleted, st.current, line[1..], '-');
      }
    }
  }

  lemma {:induction false} RunKeepsSound(st: State, lines: seq<string>)
    requires st.Valid() && IsSound(st) && forall l :: l in lines ==> Unbroken(l)
    ensures Run(st, lines).Ok? ==> IsSound(Run(st, lines).value)
    decreases lines
  {
    if lines != [] {
      StepKeepsSound(st, lines[0]);
      var next := Step(st, lines[0]);
      if next.Ok? {
        RunKeepsSound(next.value, lines[1..]);
      }
    }
  }

  /** Whatever the input, an accepted patch names distinct valid paths, each with its two lists, and no text
      in a list holds a line break or begins like the rest of a file marker. */
  lemma AcceptedPatchIsSound(content: string)
    requires Parse(content).Ok?
    ensures var r := Parse(content).value;
      && r.paths != []
      && (forall i, j :: 0 <= i < j < |r.paths| ==> r.paths[i] != r.paths[j])
      && (forall p :: p in r.paths ==> ValidPath(p) && Unbroken(p))
      && (forall p :: p in r.added <==> p in r.paths) && (forall p :: p in r.deleted <==> p in r.paths)
      && AllClean(r.added, '+') && AllClean(r.deleted, '-')
  {
    SplitLinesAreUnbroken(content);
    RunKeepsSound(START, SplitLines(content));
  }

  // ---------- runs ----------

  function Bind(r: Result<State>, lines: seq<string>): Result<State>
    requires r.Ok? ==> r.value.Valid()
  {
    if r.Ok? then Run(r.value, lines) else r
  }

  lemma {:induction false} RunAppend(st: State, a: seq<string>, b: seq<string>)
    requires st.Valid()
    ensures Run(st, a + b) == Bind(Run(st, a), b)
    decreases a
  {
    if a == [] {
      assert a + b == b;
    } else {
      assert (a + b)[0] == a[0] && (a + b)[1..] == a[1..] + b;
      match Step(st, a[0])
      case Err(_) =>
      case Ok(next) => RunAppend(next, a[1..], b);
    }
  }

  lemma RunFirst(st: State, line: string, next: State, rest: seq<string>)
    requires st.Valid() && Step(st, line) == Ok(next)
    ensures Run(st, [line] + rest) == Run(next, rest)
  {
    assert ([line] + rest)[1..] == rest;
  }

  predicate IsHeader(line: string) { MatchHeader(line).Groups? }

  predicate NoHeaders(lines: seq<string>) { forall l :: l in lines ==> !IsHeader(l) }

  function HeaderCount(lines: seq<string>): nat {
    if lines == [] then 0 else (if IsHeader(lines[0]) then 1 else 0) + HeaderCount(lines[1..])
  }

  lemma {:induction false} HeaderCountAppend(a: seq<string>, b: seq<string>)
    ensures HeaderCount(a + b) == HeaderCount(a) + HeaderCount(b)
  {
    if a == [] {
      assert a + b == b;
    } else {
      assert (a + b)[0] == a[0] && (a + b)[1..] == a[1..] + b;
      HeaderCountAppend(a[1..], b);
    }
  }

  lemma {:induction false} NoHeadersCounted(lines: seq<string>)
    ensures HeaderCount(lines) == 0 <==> NoHeaders(lines)
  {
    if lines != [] {
      NoHeadersCounted(lines[1..]);
      assert lines == [lines[0]] + lines[1..];
    }
  }

  /** An accepted run reads one path per header. */
  lemma {:induction false} RunCountsHeaders(st: State, lines: seq<string>)
    requires st.Valid() && Run(st, lines).Ok?
    ensures |Run(st, lines).value.paths| == |st.paths| + HeaderCount(lines)
    decreases lines
  {
    if lines != [] {
      RunCountsHeaders(Step(st, lines[0]).value, lines[1..]);
    }
  }

  /** One header with two different paths is enough to refuse a patch. */
  lemma {:induction false} RenameIsRefused(st: State, lines: seq<string>, line: string)
    requires st.Valid() && line in lines && IsHeader(line) && MatchHeader(line).left != MatchHeader(line).right
    ensures Run(st, lines).Err?
    decreases lines
  {
    if lines[0] != line && Step(st, lines[0]).Ok? {
      RenameIsRefused(Step(st, lines[0]).value, lines[1..], line);
    }
  }

  // ---------- which patches are accepted ----------

  /** The paths of the headers, in order. */
  function HeaderPaths(lines: seq<string>): seq<string> {
    if lines == [] then []
    else HeaderPath(lines[0]) + HeaderPaths(lines[1..])
  }

  function HeaderPath(line: string): seq<string> { if IsHeader(line) then [MatchHeader(line).left] else [] }

  predicate IsHunkLine(line: string) { !IsHeader(line) && StartsWith(line, HUNK) }

  predicate GoodHeader(line: string) {
    IsHeader(line) ==> MatchHeader(line).left == MatchHeader(line).right && ValidPath(MatchHeader(line).left)
  }

  predicate GoodHeaders(lines: seq<string>) { forall l :: l in lines ==> GoodHeader(l) }

  ghost predicate HeaderBefore(lines: seq<string>, k: nat) { exists j :: 0 <= j < k && j < |lines| && IsHeader(lines[j]) }

  /** Every hunk has a header in front of it. */
  ghost predicate HunksHaveFiles(started: bool, lines: seq<string>) {
    started || forall k :: 0 <= k < |lines| && IsHunkLine(lines[k]) ==> HeaderBefore(lines, k)
  }

  lemma HeaderBeforeShifts(lines: seq<string>, k: nat)
    requires lines != []
    ensures HeaderBefore(lines, k + 1) <==> IsHeader(lines[0]) || HeaderBefore(lines[1..], k)
  {
    if HeaderBefore(lines[1..], k) {
      var j :| 0 <= j < k && j < |lines[1..]| && IsHeader(lines[1..][j]);
      assert IsHeader(lines[j + 1]);
    }
    if HeaderBefore(lines, k + 1) && !IsHeader(lines[0]) {
      var j :| 0 <= j < k + 1 && j < |lines| && IsHeader(lines[j]);
      assert IsHeader(lines[1..][j - 1]);
    }
  }

  lemma HunksHaveFilesStep(started: bool, lines: seq<string>)
    requires lines != []
    ensures HunksHaveFiles(started, lines) <==>
      (IsHunkLine(lines[0]) ==> started) && HunksHaveFiles(started || IsHeader(lines[0]), lines[1..])
  {
    hide IsHunkLine, IsHeader, HeaderBefore;
    var rest := lines[1..];
    NothingBefore(lines);
    forall k | 0 <= k < |rest| ensures HeaderBefore(lines, k + 1) <==> IsHeader(lines[0]) || HeaderBefore(rest, k) {
      HeaderBeforeShifts(lines, k);
    }
    if HunksHaveFiles(started, lines) && !started && !IsHeader(lines[0]) {
      forall k | 0 <= k < |rest| && IsHunkLine(rest[k]) ensures HeaderBefore(rest, k) {
        assert lines[k + 1] == rest[k];
      }
    }
    if (IsHunkLine(lines[0]) ==> started) && HunksHaveFiles(started || IsHeader(lines[0]), rest) && !started {
      forall k | 0 <= k < |lines| && IsHunkLine(lines[k]) ensures HeaderBefore(lines, k) {
        assert k > 0 && lines[k] == rest[k - 1];
        assert IsHeader(lines[0]) || HeaderBefore(rest, k - 1);
        HeaderBeforeShifts(lines, k - 1);
      }
    }
  }

  lemma NothingBefore(lines: seq<string>)
    ensures !HeaderBefore(lines, 0)
  {
  }

  /** The lines are accepted exactly when every header has one valid path, no path repeats, and every hunk follows
      a header; the paths are then those of the headers. */
  lemma {:induction false} RunAcceptsExactly(st: State, lines: seq<string>)
    requires st.Valid() && NeverTwice(st.paths)
    ensures Run(st, lines).Ok? <==>
      GoodHeaders(lines) && NeverTwice(st.paths + HeaderPaths(lines)) && HunksHaveFiles(st.paths != [], lines)
    ensures Run(st, lines).Ok? ==> Run(st, lines).value.paths == st.paths + HeaderPaths(lines)
    decreases lines
  {
    hide HunksHaveFiles, GoodHeader, IsHunkLine, Step;
    if lines == [] {
      assert st.paths + [] == st.paths;
      NoHunks(st.paths != []);
    } else {
      var first, rest := HeaderPath(lines[0]), HeaderPaths(lines[1..]);
      HunksHaveFilesStep(st.paths != [], lines);
      FirstOrAfter(lines);
      StepAcceptsExactly(st, lines[0]);
      assert st.paths + HeaderPaths(lines) == st.paths + first + rest;
      RepeatStays(st.paths + first, rest);
      if Step(st, lines[0]).Ok? {
        RunAcceptsExactly(Step(st, lines[0]).value, lines[1..]);
      }
    }
  }

  lemma NoHunks(started: bool)
    ensures HunksHaveFiles(started, [])
  {
  }

  lemma RepeatStays(a: seq<string>, b: seq<string>)
    ensures NeverTwice(a + b) ==> NeverTwice(a)
  {
    assert forall i :: 0 <= i < |a| ==> (a + b)[i] == a[i];
  }

  lemma StepAcceptsExactly(st: State, line: string)
    requires st.Valid() && NeverTwice(st.paths)
    ensures var added := HeaderPath(line);
      && (Step(st, line).Ok? <==>
            GoodHeader(line) && NeverTwice(st.paths + added) && (IsHunkLine(line) ==> st.paths != []))
      && (Step(st, line).Ok? ==> Step(st, line).value.paths == st.paths + added)
      && (st.paths + added != [] <==> st.paths != [] || IsHeader(line))
  {
    if IsHeader(line) {
      var p := MatchHeader(line).left;
      var more := st.paths + [p];
      if p in st.paths {
        var i :| 0 <= i < |st.paths| && st.paths[i] == p;
        assert more[i] == more[|st.paths|];
      }
    } else {
      assert st.paths + [] == st.paths;
    }
  }

  /** A patch is accepted exactly when its content is not binary, it has a header, and its lines are accepted. */
  lemma ParseAcceptsExactly(content: string)
    ensures var lines := SplitLines(content);
      && (Parse(content).Ok? <==>
            && !IsBinary(content) && HeaderPaths(lines) != []
            && GoodHeaders(lines) && NeverTwice(HeaderPaths(lines)) && HunksHaveFiles(false, lines))
      && (Parse(content).Ok? ==> Parse(content).value.paths == HeaderPaths(lines))
  {
    RunAcceptsExactly(START, SplitLines(content));
    assert [] + HeaderPaths(SplitLines(content)) == HeaderPaths(SplitLines(content));
  }

  // ---------- valid paths ----------

  /** A part of a path between slashes. */
  predicate IsSegment(path: string, i: int, j: int) {
    && 0 <= i <= j <= |path| && '/' !in path[i..j]
    && (i == 0 || path[i - 1] == '/') && (j == |path| || path[j] == '/')
  }

  lemma SegmentShifts(path: string, i: nat, j: nat)
    requires path != "" && i <= j < |path|
    ensures IsSegment(path, i + 1, j + 1) <==> IsSegment(path[1..], i, j) && (i > 0 || path[0] == '/')
    ensures path[i + 1..j + 1] == path[1..][i..j]
  {
    var whole, inner := path[i + 1..j + 1], path[1..][i..j];
    assert |whole| == |inner| && forall n :: 0 <= n < j - i ==> whole[n] == path[i + 1 + n] == inner[n];
    assert i > 0 ==> path[1..][i - 1] == path[i];
    assert j + 1 < |path| ==> path[1..][j] == path[j + 1];
  }

  lemma FirstSegment(path: string, j: nat, k: nat)
    requires IsSegment(path, 0, j) && IsSegment(path, 0, k)
    ensures j == k
  {
    NoSlashInside(path, j);
    NoSlashInside(path, k);
  }

  lemma NoSlashInside(path: string, j: int)
    requires IsSegment(path, 0, j)
    ensures forall n :: 0 <= n < j ==> path[n] != '/'
  {
    forall n | 0 <= n < j ensures path[n] != '/' {
      assert path[0..j][n] == path[n];
    }
  }

  ghost predicate IsLaterSegment(path: string, c: string) {
    exists i, j :: 0 < i && IsSegment(path, i, j) && path[i..j] == c
  }

  lemma {:induction false} ComponentsInOrder(path: string, c: string) returns (end: nat)
    ensures IsSegment(path, 0, end) && Components(path)[0] == path[..end]
    ensures c in Components(path)[1..] <==> IsLaterSegment(path, c)
  {
    if path == "" {
      end := 0;
    } else {
      var rest := path[1..];
      var after := ComponentsInOrder(rest, c);
      LaterSegments(path, c, after);
      if path[0] == '/' {
        end := 0;
        FirstOrAfter(Components(rest));
      } else {
        end := after + 1;
        assert path[..end] == [path[0]] + rest[..after];
      }
    }
  }

  lemma LaterSegments(path: string, c: string, after: nat)
    requires path != "" && IsSegment(path[1..], 0, after)
    ensures IsLaterSegment(path, c) <==> IsLaterSegment(path[1..], c) || (path[0] == '/' && path[1..][..after] == c)
  {
    var rest := path[1..];
    if IsLaterSegment(path, c) {
      var i, j :| 0 < i && IsSegment(path, i, j) && path[i..j] == c;
      SegmentShifts(path, i - 1, j - 1);
      if i == 1 {
        FirstSegment(rest, j - 1, after);
      }
    }
    if IsLaterSegment(rest, c) {
      var i, j :| 0 < i && IsSegment(rest, i, j) && rest[i..j] == c;
      SegmentShifts(path, i, j);
    }
    if path[0] == '/' {
      SegmentShifts(path, 0, after);
    }
  }

  /** The components are the parts between slashes. */
  lemma ComponentsAre(path: string, c: string)
    ensures c in Components(path) <==> exists i, j :: IsSegment(path, i, j) && path[i..j] == c
  {
    var end := ComponentsInOrder(path, c);
    FirstOrAfter(Components(path));
    if i, j :| IsSegment(path, i, j) && path[i..j] == c {
      if i == 0 {
        FirstSegment(path, j, end);
      }
    }
    assert path[0..end] == path[..end];
  }

  /** A path is valid exactly when it has no backslash and no line end, and is a single dot or has only parts
      between slashes that are neither empty nor one or two dots. */
  lemma ValidPathMeans(path: string)
    ensures ValidPath(path) <==>
      && '\\' !in path && '\n' !in path && '\r' !in path
      && (path == "." || forall i, j :: IsSegment(path, i, j) ==> path[i..j] != "" && path[i..j] != "." && path[i..j] != "..")
  {
    forall i, j | IsSegment(path, i, j) ensures path[i..j] in Components(path) {
      ComponentsAre(path, path[i..j]);
    }
    forall c | c in Components(path) ensures exists i, j :: IsSegment(path, i, j) && path[i..j] == c {
      ComponentsAre(path, c);
    }
    if path == "" {
      assert IsSegment(path, 0, 0) && path[0..0] == "";
    }
  }

  // ---------- the changed lines of a hunk ----------

  function MarkedText(line: string, sign: char): seq<string> { if IsMarked(line, sign) then [line[1..]] else [] }

  /** The texts of the changed lines among lines of a hunk. */
  function MarkedTexts(lines: seq<string>, sign: char): seq<string> {
    if lines == [] then [] else MarkedText(lines[0], sign) + MarkedTexts(lines[1..], sign)
  }

  lemma {:induction false} MarkedAppend(a: seq<string>, b: seq<string>, sign: char)
    ensures MarkedTexts(a + b, sign) == MarkedTexts(a, sign) + MarkedTexts(b, sign)
  {
    if a == [] {
      assert a + b == b;
    } else {
      assert (a + b)[0] == a[0] && (a + b)[1..] == a[1..] + b;
      MarkedAppend(a[1..], b, sign);
    }
  }

  /** The state with lines appended to the lists of the current file. */
  function Extended(st: State, a: seq<string>, d: seq<string>): (r: State)
    requires st.Valid() && st.inHunk
    ensures r.Valid() && r.inHunk && r.current == st.current
  {
    st.(added := st.added[st.current := st.added[st.current] + a],
        deleted := st.deleted[st.current := st.deleted[st.current] + d])
  }

  lemma ExtendTwice(st: State, a: seq<string>, d: seq<string>, a': seq<string>, d': seq<string>)
    requires st.Valid() && st.inHunk
    ensures Extended(Extended(st, a, d), a', d') == Extended(st, a + a', d + d')
    ensures Extended(st, [], []) == st
  {
    assert st.added[st.current] + a + a' == st.added[st.current] + (a + a');
    assert st.deleted[st.current] + d + d' == st.deleted[st.current] + (d + d');
    assert st.added[st.current] + [] == st.added[st.current];
    assert st.deleted[st.current] + [] == st.deleted[st.current];
    assert st.added[st.current := st.added[st.current]] == st.added;
    assert st.deleted[st.current := st.deleted[st.current]] == st.deleted;
  }

  lemma StepInHunk(st: State, line: string)
    requires st.Valid() && st.inHunk && !IsHeader(line)
    ensures Step(st, line) == Ok(Extended(st, MarkedText(line, '+'), MarkedText(line, '-')))
  {
    ExtendTwice(st, [], [], [], []);
    assert st.added[st.current] + [] == st.added[st.current];
    assert st.deleted[st.current] + [] == st.deleted[st.current];
    assert st.added[st.current := st.added[st.current]] == st.added;
    assert st.deleted[st.current := st.deleted[st.current]] == st.deleted;
    assert line != "" ==> ['+'][0] != ['-'][0] && HUNK[0] == '@';
  }

  /** Inside a hunk a run collects the changed lines. */
  lemma {:induction false} RunInHunk(st: State, lines: seq<string>)
    requires st.Valid() && st.inHunk && NoHeaders(lines)
    ensures Run(st, lines) == Ok(Extended(st, MarkedTexts(lines, '+'), MarkedTexts(lines, '-')))
    decreases lines
  {
    if lines == [] {
      ExtendTwice(st, [], [], [], []);
    } else {
      StepInHunk(st, lines[0]);
      var next := Extended(st, MarkedText(lines[0], '+'), MarkedText(lines[0], '-'));
      RunInHunk(next, lines[1..]);
      ExtendTwice(st, MarkedText(lines[0], '+'), MarkedText(lines[0], '-'),
                  MarkedTexts(lines[1..], '+'), MarkedTexts(lines[1..], '-'));
    }
  }
}
