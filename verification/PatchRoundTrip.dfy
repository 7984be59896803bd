/** Patches as git prints them, and what `_parse_patch` (scripts/check_canonical_ndt_convergence.py) reads
    back from them: everything, exactly under conditions on paths and lines that the code does not check. */
module PatchRoundTrip {
  import opened Sequences
  import opened Text
  import opened Patch

  // ---------- the printer ----------

  datatype Change = Context(text: string) | Added(text: string) | Deleted(text: string) | NoFinalNewline
  datatype Hunk = Hunk(range: string, body: seq<Change>)
  datatype FilePatch = FilePatch(path: string, preamble: seq<string>, hunks: seq<Hunk>)

  function HeaderLine(path: string): string { HEADER + path + SEPARATOR + path }

  const NOTE: string := "\\ No newline at end of file"

  function ChangeLine(c: Change): string {
    match c
    case Context(t) => [' '] + t
    case Added(t) => ['+'] + t
    case Deleted(t) => ['-'] + t
    case NoFinalNewline => NOTE
  }

  function BodyLines(body: seq<Change>): seq<string> {
    if body == [] then [] else [ChangeLine(body[0])] + BodyLines(body[1..])
  }

  function OneHunkLines(h: Hunk): seq<string> { [HUNK + h.range] + BodyLines(h.body) }

  function HunkLines(hunks: seq<Hunk>): seq<string> {
    if hunks == [] then [] else OneHunkLines(hunks[0]) + HunkLines(hunks[1..])
  }

  function FileLines(f: FilePatch): seq<string> { [HeaderLine(f.path)] + f.preamble + HunkLines(f.hunks) }

  function PatchLines(files: seq<FilePatch>): seq<string> {
    if files == [] then [] else FileLines(files[0]) + PatchLines(files[1..])
  }

  function Render(files: seq<FilePatch>): string { Unlines(PatchLines(files)) }

  function Changes(hunks: seq<Hunk>): seq<Change> {
    if hunks == [] then [] else hunks[0].body + Changes(hunks[1..])
  }

  /** The text a change adds ('+') or deletes ('-'), if it does. */
  function TextOf(c: Change, sign: char): seq<string> {
    if (sign == '+' && c.Added?) || (sign == '-' && c.Deleted?) then [c.text] else []
  }

  function Texts(cs: seq<Change>, sign: char): seq<string> {
    if cs == [] then [] else TextOf(cs[0], sign) + Texts(cs[1..], sign)
  }

  function Paths(files: seq<FilePatch>): seq<string> {
    seq(|files|, i requires 0 <= i < |files| => files[i].path)
  }

  predicate Distinct(files: seq<FilePatch>) {
    forall i, j :: 0 <= i < j < |files| ==> files[i].path != files[j].path
  }

  /** The lines between header and hunks (index, modes, --- and +++) are neither headers nor hunks. */
  predicate WellFormed(f: FilePatch) {
    && ValidPath(f.path)
    && forall l :: l in f.preamble ==> Unbroken(l) && !IsHeader(l) && !StartsWith(l, HUNK)
  }

  /** A path the header line can carry: the greedy split must not find its separator inside. */
  predicate Carriable(path: string) { ValidPath(path) && Unbroken(path) && !Contains(path, SEPARATOR) }

  // ---------- headers ----------

  predicate SplitsAt(rest: string, k: int) { 1 <= k && k + 3 < |rest| && rest[k..k + 3] == SEPARATOR }

  lemma {:induction false} LastSplitIsLast(rest: string, k: int, at: int)
    requires SplitsAt(rest, at) && at <= k
    requires forall i :: at < i <= k ==> !SplitsAt(rest, i)
    ensures LastSplit(rest, k) == Groups(rest[..at], rest[at + 3..])
    decreases k
  {
    if at < k {
      assert !SplitsAt(rest, k);
      LastSplitIsLast(rest, k - 1, at);
    }
  }

  lemma {:induction false} LastSplitNotBefore(rest: string, k: int, at: int)
    requires SplitsAt(rest, at) && at <= k
    ensures LastSplit(rest, k).Groups? && |LastSplit(rest, k).left| >= at
    ensures |LastSplit(rest, k).left| + 3 + |LastSplit(rest, k).right| == |rest|
    decreases k
  {
    if !SplitsAt(rest, k) {
      LastSplitNotBefore(rest, k - 1, at);
    }
  }

  /** A path ending in a slash has an empty last component, so it is not valid. */
  lemma {:induction false} LastComponent(path: string)
    requires path != "" && path[|path| - 1] == '/'
    ensures |Components(path)| >= 2 && Components(path)[|Components(path)| - 1] == ""
  {
    if |path| > 1 {
      assert path[1..][|path| - 2] == '/';
      LastComponent(path[1..]);
    } else {
      assert path[1..] == "" && Components("") == [""];
    }
  }

  /** The header line of a path is read back as that path exactly when the path holds no " b/". */
  lemma HeaderRoundTrip(path: string)
    requires ValidPath(path)
    ensures MatchHeader(HeaderLine(path)) == Groups(path, path) <==> !Contains(path, SEPARATOR)
    ensures MatchHeader(HeaderLine(path)).Groups? &&
      (Contains(path, SEPARATOR) ==> MatchHeader(HeaderLine(path)).left != MatchHeader(HeaderLine(path)).right)
  {
    var line := HeaderLine(path);
    var rest := path + SEPARATOR + path;
    assert line[|HEADER|..] == rest;
    assert rest[|path|..|path| + 3] == SEPARATOR;
    assert SplitsAt(rest, |path|);
    if Contains(path, SEPARATOR) {
      var i :| 0 <= i <= |path| && StartsWith(path[i..], SEPARATOR);
      NotAtTheEnd(path, i);
      var at := |path| + 3 + i;
      assert rest[at..at + 3] == path[i..][..3];
      LastSplitNotBefore(rest, |line|, at);
    } else {
      forall k | |path| < k <= |line| ensures !SplitsAt(rest, k) {
        if SplitsAt(rest, k) {
          NoLaterSplit(path, k);
        }
      }
      LastSplitIsLast(rest, |line|, |path|);
      assert rest[..|path|] == path && rest[|path| + 3..] == path;
    }
  }

  lemma NotAtTheEnd(path: string, i: nat)
    requires ValidPath(path) && i <= |path| && StartsWith(path[i..], SEPARATOR)
    ensures i + 3 < |path|
  {
    assert path[i..][2] == path[i + 2] == SEPARATOR[2] == '/';
    var cs := Components(path);
    assert forall j :: 0 <= j < |cs| ==> cs[j] in cs;
    if path[|path| - 1] == '/' {
      LastComponent(path);
    }
  }

  lemma NoLaterSplit(path: string, k: int)
    requires |path| < k && SplitsAt(path + SEPARATOR + path, k)
    ensures Contains(path, SEPARATOR)
  {
    var rest := path + SEPARATOR + path;
    assert rest[k..k + 3][0] == rest[k] == ' ';
    assert rest[|path|..|path| + 3] == SEPARATOR;
    assert k >= |path| + 3 by {
      assert rest[|path| + 1] == 'b' && rest[|path| + 2] == '/';
    }
    var i := k - |path| - 3;
    assert path[i..][..3] == rest[k..k + 3];
  }

  // ---------- what is read back ----------

  /** The physical lines of a file's hunks: a line with a break of its own comes apart. */
  function HunkPieces(f: FilePatch): seq<string> { AllPieces(HunkLines(f.hunks)) }

  function FilePieces(f: FilePatch): seq<string> { AllPieces(FileLines(f)) }

  /** The texts read back for a file. */
  function ReadTexts(f: FilePatch, sign: char): seq<string> { MarkedTexts(HunkPieces(f), sign) }

  /** The file is read as one file under its own path. */
  predicate Readable(f: FilePatch) { WellFormed(f) && Carriable(f.path) && NoHeaders(HunkPieces(f)) }

  lemma HeaderLineIsUnbroken(path: string)
    ensures Unbroken(HeaderLine(path)) <==> Unbroken(path)
  {
    var line := HeaderLine(path);
    assert line == HEADER + path + SEPARATOR + path;
    assert forall c :: c in line <==> c in HEADER || c in path || c in SEPARATOR;
    assert Unbroken(HEADER) && Unbroken(SEPARATOR);
  }

  lemma FilePiecesAre(f: FilePatch)
    requires WellFormed(f) && Unbroken(f.path)
    ensures FilePieces(f) == [HeaderLine(f.path)] + (f.preamble + HunkPieces(f))
  {
    var opening := [HeaderLine(f.path)] + f.preamble;
    HeaderLineIsUnbroken(f.path);
    AllPiecesAppend(opening, HunkLines(f.hunks));
    UnbrokenPieces(opening);
    Regroup([HeaderLine(f.path)], f.preamble, HunkPieces(f));
  }

  /** The state after one printed file. */
  function AfterFile(st: State, f: FilePatch): State {
    State(st.paths + [f.path], st.added[f.path := ReadTexts(f, '+')], st.deleted[f.path := ReadTexts(f, '-')],
          f.path, f.hunks != [])
  }

  /** The state right after a file's header line. */
  function Started(st: State, path: string): State {
    State(st.paths + [path], st.added[path := []], st.deleted[path := []], path, false)
  }

  lemma StartedIsValid(st: State, path: string)
    requires st.Valid()
    ensures Started(st, path).Valid()
  {
    assert forall q :: q in st.paths + [path] <==> q in st.paths || q == path;
  }

  lemma OpeningFile(st: State, f: FilePatch)
    requires st.Valid() && Readable(f) && f.path !in st.paths
    ensures Step(st, HeaderLine(f.path)) == Ok(Started(st, f.path))
  {
    HeaderRoundTrip(f.path);
  }

  lemma {:induction false} RunPreamble(st: State, lines: seq<string>)
    requires st.Valid() && !st.inHunk
    requires forall l :: l in lines ==> !IsHeader(l) && !StartsWith(l, HUNK)
    ensures Run(st, lines) == Ok(st)
    decreases lines
  {
    if lines != [] {
      assert lines[0] in lines;
      RunPreamble(st, lines[1..]);
    }
  }

  lemma HunkMarkIsUnbroken()
    ensures forall i :: 0 <= i < |HUNK| ==> !IsBreak(HUNK[i])
  {
  }

  lemma HunkPiecesOpen(h: Hunk, rest: seq<string>)
    ensures var pieces := AllPieces(OneHunkLines(h) + rest); pieces != [] && StartsWith(pieces[0], HUNK)
  {
    var line := HUNK + h.range;
    var n := LineEnd(line + NEWLINE);
    assert (OneHunkLines(h) + rest)[0] == line;
    FirstPiece(line);
    HunkMarkIsUnbroken();
    assert forall i :: 0 <= i < |HUNK| ==> (line + NEWLINE)[i] == HUNK[i] && !IsBreak(HUNK[i]);
    assert HUNK <= line[..n];
  }

  lemma RunHunkPieces(st: State, f: FilePatch)
    requires st.Valid() && !st.inHunk && st.paths != [] && NoHeaders(HunkPieces(f))
    ensures Run(st, HunkPieces(f)) ==
      Ok(Extended(st.(inHunk := true), ReadTexts(f, '+'), ReadTexts(f, '-')).(inHunk := f.hunks != []))
  {
    var open := st.(inHunk := true);
    if f.hunks == [] {
      ExtendTwice(open, [], [], [], []);
    } else {
      var pieces := HunkPieces(f);
      HunkPiecesOpen(f.hunks[0], HunkLines(f.hunks[1..]));
      assert Step(st, pieces[0]) == Ok(open) == Step(open, pieces[0]);
      RunInHunk(open, pieces);
    }
  }

  lemma RunAfterHeader(st: State, f: FilePatch)
    requires st.Valid() && !st.inHunk && st.paths != [] && Readable(f)
    ensures Run(st, f.preamble + HunkPieces(f)) ==
      Ok(Extended(st.(inHunk := true), ReadTexts(f, '+'), ReadTexts(f, '-')).(inHunk := f.hunks != []))
  {
    RunPreamble(st, f.preamble);
    RunAppend(st, f.preamble, HunkPieces(f));
    RunHunkPieces(st, f);
  }

  lemma FilledIn(st: State, path: string, a: seq<string>, d: seq<string>, inHunk: bool)
    requires st.Valid() && Started(st, path).Valid()
    ensures Extended(Started(st, path).(inHunk := true), a, d).(inHunk := inHunk) ==
      State(st.paths + [path], st.added[path := a], st.deleted[path := d], path, inHunk)
  {
    assert [] + a == a && [] + d == d;
    assert st.added[path := []][path := a] == st.added[path := a];
    assert st.deleted[path := []][path := d] == st.deleted[path := d];
  }

  lemma RunFileLines(st: State, f: FilePatch)
    requires st.Valid() && Readable(f) && f.path !in st.paths
    ensures Run(st, [HeaderLine(f.path)] + (f.preamble + HunkPieces(f))) == Ok(AfterFile(st, f))
  {
    var started := Started(st, f.path);
    StartedIsValid(st, f.path);
    OpeningFile(st, f);
    RunFirst(st, HeaderLine(f.path), started, f.preamble + HunkPieces(f));
    RunAfterHeader(started, f);
    FilledIn(st, f.path, ReadTexts(f, '+'), ReadTexts(f, '-'), f.hunks != []);
  }

  lemma RunFile(st: State, f: FilePatch)
    requires st.Valid() && Readable(f) && f.path !in st.paths
    ensures AfterFile(st, f).Valid()
    ensures Run(st, FilePieces(f)) == Ok(AfterFile(st, f))
  {
    StartedIsValid(st, f.path);
    RunFileLines(st, f);
    FilePiecesAre(f);
  }

  /** What a whole printed patch adds to a state. */
  function AfterFiles(st: State, files: seq<FilePatch>): State
    decreases files
  {
    if files == [] then st else AfterFiles(AfterFile(st, files[0]), files[1..])
  }

  lemma PatchPiecesSplit(files: seq<FilePatch>)
    requires files != []
    ensures AllPieces(PatchLines(files)) == FilePieces(files[0]) + AllPieces(PatchLines(files[1..]))
  {
    AllPiecesAppend(FileLines(files[0]), PatchLines(files[1..]));
  }

  /** The files can still be opened from this state. */
  ghost predicate AllNew(st: State, files: seq<FilePatch>) {
    Distinct(files) && forall f :: f in files ==> Readable(f) && f.path !in st.paths
  }

  lemma OthersStayNew(st: State, files: seq<FilePatch>)
    requires files != [] && AllNew(st, files)
    ensures AllNew(AfterFile(st, files[0]), files[1..])
  {
    forall f | f in files[1..] ensures Readable(f) && f.path !in st.paths + [files[0].path] {
      var i :| 0 <= i < |files| - 1 && files[1..][i] == f;
      assert files[i + 1] == f && files[0].path != files[i + 1].path;
    }
  }

  lemma RunFiles(st: State, files: seq<FilePatch>)
    requires st.Valid() && AllNew(st, files)
    ensures Run(st, AllPieces(PatchLines(files))) == Ok(AfterFiles(st, files))
    decreases files
  {
    if files != [] {
      assert files[0] in files;
      RunFile(st, files[0]);
      PatchPiecesSplit(files);
      RunAppend(st, FilePieces(files[0]), AllPieces(PatchLines(files[1..])));
      OthersStayNew(st, files);
      RunFiles(AfterFile(st, files[0]), files[1..]);
    }
  }

  /** The lists of a state hold what is read back for one file. */
  predicate Holds(st: State, f: FilePatch) {
    && f.path in st.added && st.added[f.path] == ReadTexts(f, '+')
    && f.path in st.deleted && st.deleted[f.path] == ReadTexts(f, '-')
  }

  predicate SameAt(st: State, st': State, p: string) {
    && (p in st.added <==> p in st'.added) && (p in st.added ==> st.added[p] == st'.added[p])
    && (p in st.deleted <==> p in st'.deleted) && (p in st.deleted ==> st.deleted[p] == st'.deleted[p])
  }

  lemma {:induction false} AfterFilesElsewhere(st: State, files: seq<FilePatch>, p: string)
    requires forall f :: f in files ==> f.path != p
    ensures SameAt(st, AfterFiles(st, files), p)
    decreases files
  {
    if files != [] {
      assert forall f :: f in files[1..] ==> f in files;
      AfterFilesElsewhere(AfterFile(st, files[0]), files[1..], p);
    }
  }

  lemma {:induction false} AfterFilesHold(st: State, files: seq<FilePatch>)
    requires Distinct(files)
    ensures AfterFiles(st, files).paths == st.paths + Paths(files)
    ensures forall f :: f in files ==> Holds(AfterFiles(st, files), f)
    decreases files
  {
    if files != [] {
      var next, rest := AfterFile(st, files[0]), files[1..];
      AfterFilesHold(next, rest);
      assert Paths(files) == [files[0].path] + Paths(rest);
      forall f | f in rest ensures f.path != files[0].path {
        var i :| 0 <= i < |rest| && rest[i] == f;
        assert files[i + 1] == f;
      }
      AfterFilesElsewhere(next, rest, files[0].path);
      assert files == [files[0]] + rest;
    }
  }

  lemma PathsMembers(files: seq<FilePatch>, p: string)
    ensures p in Paths(files) <==> exists f :: f in files && f.path == p
  {
    if p in Paths(files) {
      var i :| 0 <= i < |files| && Paths(files)[i] == p;
      assert files[i] in files;
    }
    if f :| f in files && f.path == p {
      var i :| 0 <= i < |files| && files[i] == f;
      assert Paths(files)[i] == p;
    }
  }

  /** The sum over the files of the changed lines read. */
  function ReadTotal(files: seq<FilePatch>, sign: char): nat {
    if files == [] then 0 else |ReadTexts(files[0], sign)| + ReadTotal(files[1..], sign)
  }

  lemma {:induction false} TotalsOverFiles(files: seq<FilePatch>, lists: map<string, seq<string>>, sign: char)
    requires forall f :: f in files ==> f.path in lists && lists[f.path] == ReadTexts(f, sign)
    ensures forall p :: p in Paths(files) ==> p in lists
    ensures TotalLines(Paths(files), lists) == ReadTotal(files, sign)
  {
    if files != [] {
      assert forall f :: f in files[1..] ==> f in files;
      TotalsOverFiles(files[1..], lists, sign);
      assert files[0] in files;
      assert Paths(files)[0] == files[0].path && Paths(files)[1..] == Paths(files[1..]);
      assert forall p :: p in Paths(files) <==> p == files[0].path || p in Paths(files[1..]) by {
        assert Paths(files) == [files[0].path] + Paths(files[1..]);
      }
    }
  }

  /** The paths in order, the texts read for each file, and totals that are the sums over the files. */
  ghost predicate Recovers(r: Parsed, files: seq<FilePatch>) {
    && r.paths == Paths(files)
    && (forall f :: f in files ==> f.path in r.added && r.added[f.path] == ReadTexts(f, '+'))
    && (forall f :: f in files ==> f.path in r.deleted && r.deleted[f.path] == ReadTexts(f, '-'))
    && r.additions == ReadTotal(files, '+') && r.deletions == ReadTotal(files, '-')
  }

  /** A printed patch of readable files is read as those files: its paths in order, and for each file the
      changed lines among the physical lines of its hunks. */
  lemma ParseRendered(files: seq<FilePatch>)
    requires files != [] && Distinct(files) && (forall f :: f in files ==> Readable(f))
    requires !IsBinary(Render(files))
    ensures Parse(Render(files)).Ok? && Recovers(Parse(Render(files)).value, files)
  {
    SplitUnlines(PatchLines(files));
    RunFiles(START, files);
    AfterFilesHold(START, files);
    var st := AfterFiles(START, files);
    assert [] + Paths(files) == Paths(files);
    TotalsOverFiles(files, st.added, '+');
    TotalsOverFiles(files, st.deleted, '-');
  }

  // ---------- when everything comes back ----------

  /** Nothing in the physical lines of this line reads as a header or a changed line. */
  predicate Harmless(line: string) {
    forall l :: l in Pieces(line) ==> !IsHeader(l) && !IsMarked(l, '+') && !IsMarked(l, '-')
  }

  /** The change is read as what it is. */
  predicate Faithful(c: Change) {
    match c
    case Context(_) => Harmless(ChangeLine(c))
    case Added(t) => IsClean(t, '+')
    case Deleted(t) => IsClean(t, '-')
    case NoFinalNewline => true
  }

  /** The file's path fits its header, its texts are clean, and its other lines are harmless. */
  predicate FaithfulFile(f: FilePatch) {
    && Unbroken(f.path) && !Contains(f.path, SEPARATOR)
    && (forall c :: c in Changes(f.hunks) ==> Faithful(c))
    && (forall h :: h in f.hunks ==> Harmless(HUNK + h.range))
  }

  ghost predicate Returns(r: Parsed, f: FilePatch) {
    && f.path in r.added && r.added[f.path] == Texts(Changes(f.hunks), '+')
    && f.path in r.deleted && r.deleted[f.path] == Texts(Changes(f.hunks), '-')
  }

  /** The parser returns the paths in order and every changed line of every file. */
  ghost predicate AllReturn(r: Result<Parsed>, files: seq<FilePatch>) {
    r.Ok? && r.value.paths == Paths(files) && forall f :: f in files ==> Returns(r.value, f)
  }

  lemma {:induction false} TextsAppend(a: seq<Change>, b: seq<Change>, sign: char)
    ensures Texts(a + b, sign) == Texts(a, sign) + Texts(b, sign)
  {
    if a == [] {
      assert a + b == b;
    } else {
      assert (a + b)[0] == a[0] && (a + b)[1..] == a[1..] + b;
      TextsAppend(a[1..], b, sign);
    }
  }

  lemma {:induction false} TextsComeFromChanges(cs: seq<Change>)
    ensures forall t :: t in Texts(cs, '+') <==> Added(t) in cs
    ensures forall t :: t in Texts(cs, '-') <==> Deleted(t) in cs
  {
    if cs != [] {
      TextsComeFromChanges(cs[1..]);
      assert cs == [cs[0]] + cs[1..];
    }
  }

  lemma {:induction false} NothingMarked(lines: seq<string>, sign: char)
    ensures MarkedTexts(lines, sign) == [] <==> forall l :: l in lines ==> !IsMarked(l, sign)
  {
    if lines != [] {
      NothingMarked(lines[1..], sign);
      assert lines == [lines[0]] + lines[1..];
    }
  }

  lemma FirstOf(c: char, text: string)
    ensures ([c] + text)[0] == c
    ensures c != 'd' ==> !IsHeader([c] + text)
    ensures forall sign :: sign != c ==> !IsMarked([c] + text, sign)
  {
    assert HEADER[0] == 'd' && forall sign: char :: [sign][0] == sign;
  }

  /** A clean changed line is one physical line, and is read as its text. */
  lemma CleanLine(text: string, sign: char)
    requires IsClean(text, sign) && sign in {'+', '-'}
    ensures Pieces([sign] + text) == [[sign] + text] && !IsHeader([sign] + text)
    ensures MarkedTexts(Pieces([sign] + text), sign) == [text]
    ensures forall other :: other != sign ==> MarkedTexts(Pieces([sign] + text), other) == []
  {
    var line := [sign] + text;
    assert Unbroken(line) by { assert forall c :: c in line <==> c == sign || c in text; }
    UnbrokenPiece(line);
    SignedLine(text, sign);
    FirstOf(sign, text);
    assert [line][1..] == [];
  }

  lemma NoNewlineLine()
    ensures Harmless(ChangeLine(NoFinalNewline))
  {
    NoteIsUnbroken();
    UnbrokenPiece(NOTE);
    FirstOf('\\', NOTE[1..]);
    assert NOTE == ['\\'] + NOTE[1..];
  }

  lemma NoteIsUnbroken()
    ensures Unbroken(NOTE)
  {
    assert forall i :: 0 <= i < |NOTE| ==> ' ' <= NOTE[i] <= 'z';
    assert forall c :: ' ' <= c <= 'z' ==> !IsBreak(c);
  }

  lemma ChangeIsRead(c: Change, sign: char)
    requires Faithful(c) && sign in {'+', '-'}
    ensures MarkedTexts(Pieces(ChangeLine(c)), sign) == TextOf(c, sign)
    ensures NoHeaders(Pieces(ChangeLine(c)))
  {
    match c
    case Context(_) => NothingMarked(Pieces(ChangeLine(c)), sign);
    case Added(t) => CleanLine(t, '+');
    case Deleted(t) => CleanLine(t, '-');
    case NoFinalNewline =>
      NoNewlineLine();
      NothingMarked(Pieces(ChangeLine(c)), sign);
  }

  lemma {:induction false} BodyIsRead(cs: seq<Change>, sign: char)
    requires sign in {'+', '-'} && forall c :: c in cs ==> Faithful(c)
    ensures MarkedTexts(AllPieces(BodyLines(cs)), sign) == Texts(cs, sign) && NoHeaders(AllPieces(BodyLines(cs)))
  {
    if cs != [] {
      assert cs[0] in cs && forall c :: c in cs[1..] ==> c in cs;
      ChangeIsRead(cs[0], sign);
      BodyIsRead(cs[1..], sign);
      BodyStep(cs);
      MarkedBodyStep(cs, sign);
    }
  }

  lemma BodyStep(cs: seq<Change>)
    requires cs != []
    ensures AllPieces(BodyLines(cs)) == Pieces(ChangeLine(cs[0])) + AllPieces(BodyLines(cs[1..]))
  {
    assert BodyLines(cs)[1..] == BodyLines(cs[1..]);
  }

  lemma MarkedBodyStep(cs: seq<Change>, sign: char)
    requires cs != []
    ensures MarkedTexts(AllPieces(BodyLines(cs)), sign) ==
      MarkedTexts(Pieces(ChangeLine(cs[0])), sign) + MarkedTexts(AllPieces(BodyLines(cs[1..])), sign)
  {
    BodyStep(cs);
    MarkedAppend(Pieces(ChangeLine(cs[0])), AllPieces(BodyLines(cs[1..])), sign);
  }

  lemma HunkStep(hunks: seq<Hunk>)
    requires hunks != []
    ensures AllPieces(HunkLines(hunks)) ==
      Pieces(HUNK + hunks[0].range) + (AllPieces(BodyLines(hunks[0].body)) + AllPieces(HunkLines(hunks[1..])))
  {
    var h := hunks[0];
    AllPiecesAppend(OneHunkLines(h), HunkLines(hunks[1..]));
    OneHunkPieces(h);
    Regroup(Pieces(HUNK + h.range), AllPieces(BodyLines(h.body)), AllPieces(HunkLines(hunks[1..])));
  }

  lemma OneHunkPieces(h: Hunk)
    ensures AllPieces(OneHunkLines(h)) == Pieces(HUNK + h.range) + AllPieces(BodyLines(h.body))
  {
    assert OneHunkLines(h)[1..] == BodyLines(h.body);
  }

  lemma MarkedHunkStep(hunks: seq<Hunk>, sign: char)
    requires hunks != []
    ensures MarkedTexts(AllPieces(HunkLines(hunks)), sign) ==
      MarkedTexts(Pieces(HUNK + hunks[0].range), sign) +
      (MarkedTexts(AllPieces(BodyLines(hunks[0].body)), sign) + MarkedTexts(AllPieces(HunkLines(hunks[1..])), sign))
  {
    HunkStep(hunks);
    var body, rest := AllPieces(BodyLines(hunks[0].body)), AllPieces(HunkLines(hunks[1..]));
    MarkedAppend(body, rest, sign);
    MarkedAppend(Pieces(HUNK + hunks[0].range), body + rest, sign);
  }

  lemma {:induction false} HunksAreRead(hunks: seq<Hunk>, sign: char)
    requires sign in {'+', '-'} && (forall c :: c in Changes(hunks) ==> Faithful(c))
    requires forall h :: h in hunks ==> Harmless(HUNK + h.range)
    ensures MarkedTexts(AllPieces(HunkLines(hunks)), sign) == Texts(Changes(hunks), sign)
    ensures NoHeaders(AllPieces(HunkLines(hunks)))
  {
    if hunks != [] {
      var h := hunks[0];
      assert h in hunks && forall g :: g in hunks[1..] ==> g in hunks;
      assert forall c :: c in Changes(hunks) <==> c in h.body || c in Changes(hunks[1..]);
      NothingMarked(Pieces(HUNK + h.range), sign);
      BodyIsRead(h.body, sign);
      HunksAreRead(hunks[1..], sign);
      HunkStep(hunks);
      MarkedHunkStep(hunks, sign);
      TextsAppend(h.body, Changes(hunks[1..]), sign);
    }
  }

  lemma FaithfulFileIsRead(f: FilePatch)
    requires WellFormed(f) && FaithfulFile(f)
    ensures Readable(f) && ReadTexts(f, '+') == Texts(Changes(f.hunks), '+') && ReadTexts(f, '-') == Texts(Changes(f.hunks), '-')
  {
    HunksAreRead(f.hunks, '+');
    HunksAreRead(f.hunks, '-');
  }

  // The other direction: what comes back complete was faithful.

  /** The added and deleted texts are clean. */
  predicate CleanTexts(cs: seq<Change>) { forall c :: c in cs && (c.Added? || c.Deleted?) ==> Faithful(c) }

  ghost predicate QuietBody(cs: seq<Change>, sign: char) {
    forall c :: c in cs && c.Context? ==> MarkedTexts(Pieces(ChangeLine(c)), sign) == []
  }

  lemma {:induction false} BodyReadsAtLeast(cs: seq<Change>, sign: char)
    requires sign in {'+', '-'} && CleanTexts(cs)
    ensures |MarkedTexts(AllPieces(BodyLines(cs)), sign)| >= |Texts(cs, sign)|
    ensures |MarkedTexts(AllPieces(BodyLines(cs)), sign)| == |Texts(cs, sign)| ==> QuietBody(cs, sign)
  {
    if cs != [] {
      FirstOrAfter(cs);
      if !cs[0].Context? {
        ChangeIsRead(cs[0], sign);
      }
      BodyReadsAtLeast(cs[1..], sign);
      MarkedBodyStep(cs, sign);
    }
  }

  /** Neither a range nor a context line is read as a changed line. */
  ghost predicate QuietHunks(hunks: seq<Hunk>, sign: char) {
    && (forall h :: h in hunks ==> MarkedTexts(Pieces(HUNK + h.range), sign) == [])
    && QuietBody(Changes(hunks), sign)
  }

  lemma ChangesMembers(hunks: seq<Hunk>)
    requires hunks != []
    ensures forall c :: c in Changes(hunks) <==> c in hunks[0].body || c in Changes(hunks[1..])
  {
  }

  lemma QuietTogether(hunks: seq<Hunk>, sign: char)
    requires hunks != []
    ensures QuietHunks(hunks, sign) <==>
      && MarkedTexts(Pieces(HUNK + hunks[0].range), sign) == []
      && QuietBody(hunks[0].body, sign) && QuietHunks(hunks[1..], sign)
  {
    FirstOrAfter(hunks);
    ChangesMembers(hunks);
  }

  lemma {:induction false} HunksReadAtLeast(hunks: seq<Hunk>, sign: char)
    requires sign in {'+', '-'} && CleanTexts(Changes(hunks))
    ensures |MarkedTexts(AllPieces(HunkLines(hunks)), sign)| >= |Texts(Changes(hunks), sign)|
    ensures |MarkedTexts(AllPieces(HunkLines(hunks)), sign)| == |Texts(Changes(hunks), sign)| ==> QuietHunks(hunks, sign)
  {
    if hunks != [] {
      ChangesMembers(hunks);
      BodyReadsAtLeast(hunks[0].body, sign);
      HunksReadAtLeast(hunks[1..], sign);
      MarkedHunkStep(hunks, sign);
      TextsAppend(hunks[0].body, Changes(hunks[1..]), sign);
      QuietTogether(hunks, sign);
    }
  }

  lemma {:induction false} PiecesAmong(lines: seq<string>, line: string)
    requires line in lines
    ensures forall l :: l in Pieces(line) ==> l in AllPieces(lines)
  {
    if lines[0] != line {
      PiecesAmong(lines[1..], line);
    }
  }

  lemma {:induction false} BodyLineAmong(cs: seq<Change>, c: Change)
    requires c in cs
    ensures ChangeLine(c) in BodyLines(cs)
  {
    if cs[0] != c {
      BodyLineAmong(cs[1..], c);
    }
  }

  lemma {:induction false} HunkLinesAmong(hunks: seq<Hunk>)
    ensures forall h :: h in hunks ==> HUNK + h.range in HunkLines(hunks)
    ensures forall c :: c in Changes(hunks) ==> ChangeLine(c) in HunkLines(hunks)
  {
    if hunks != [] {
      HunkLinesAmong(hunks[1..]);
      assert hunks == [hunks[0]] + hunks[1..];
      forall c | c in hunks[0].body ensures ChangeLine(c) in HunkLines(hunks) {
        BodyLineAmong(hunks[0].body, c);
      }
      assert OneHunkLines(hunks[0])[0] == HUNK + hunks[0].range;
      assert forall c :: c in Changes(hunks) ==> c in hunks[0].body || c in Changes(hunks[1..]);
    }
  }

  /** A file whose lists come back complete, without a header among its pieces, is faithful. */
  lemma CompleteMeansFaithful(f: FilePatch)
    requires Readable(f) && CleanTexts(Changes(f.hunks))
    requires ReadTexts(f, '+') == Texts(Changes(f.hunks), '+') && ReadTexts(f, '-') == Texts(Changes(f.hunks), '-')
    ensures FaithfulFile(f)
  {
    HunksReadAtLeast(f.hunks, '+');
    HunksReadAtLeast(f.hunks, '-');
    HunkLinesAmong(f.hunks);
    forall c | c in Changes(f.hunks) ensures Faithful(c) {
      if c.Context? {
        QuietLine(f, ChangeLine(c));
      }
    }
    forall h | h in f.hunks ensures Harmless(HUNK + h.range) {
      QuietLine(f, HUNK + h.range);
    }
  }

  lemma QuietLine(f: FilePatch, line: string)
    requires NoHeaders(HunkPieces(f)) && line in HunkLines(f.hunks)
    requires MarkedTexts(Pieces(line), '+') == [] && MarkedTexts(Pieces(line), '-') == []
    ensures Harmless(line)
  {
    PiecesAmong(HunkLines(f.hunks), line);
    NothingMarked(Pieces(line), '+');
    NothingMarked(Pieces(line), '-');
  }

  ghost predicate NoForeignHeaders(files: seq<FilePatch>) { forall f :: f in files ==> NoHeaders(HunkPieces(f)) }

  /** Every file contributes its own header, and no other header when there are only as many as files. */
  lemma {:induction false} OneHeaderPerFile(files: seq<FilePatch>)
    requires forall f :: f in files ==> WellFormed(f) && Carriable(f.path)
    ensures HeaderCount(AllPieces(PatchLines(files))) >= |files|
    ensures HeaderCount(AllPieces(PatchLines(files))) == |files| ==> NoForeignHeaders(files)
  {
    if files != [] {
      FirstOrAfter(files);
      OneHeaderPerFile(files[1..]);
      HeadersSplit(files);
      NoHeadersCounted(HunkPieces(files[0]));
    }
  }

  lemma HeadersSplit(files: seq<FilePatch>)
    requires files != [] && WellFormed(files[0]) && Carriable(files[0].path)
    ensures HeaderCount(AllPieces(PatchLines(files))) ==
      1 + HeaderCount(HunkPieces(files[0])) + HeaderCount(AllPieces(PatchLines(files[1..])))
  {
    PatchPiecesSplit(files);
    HeaderCountAppend(FilePieces(files[0]), AllPieces(PatchLines(files[1..])));
    OwnHeader(files[0]);
  }

  lemma OwnHeader(f: FilePatch)
    requires WellFormed(f) && Carriable(f.path)
    ensures HeaderCount(FilePieces(f)) == 1 + HeaderCount(HunkPieces(f))
  {
    FilePiecesAre(f);
    HeaderRoundTrip(f.path);
    HeaderCountAppend([HeaderLine(f.path)], f.preamble + HunkPieces(f));
    HeaderCountAppend(f.preamble, HunkPieces(f));
    NoHeadersCounted(f.preamble);
    assert [HeaderLine(f.path)][1..] == [];
  }

  lemma {:induction false} HeaderLineAmong(files: seq<FilePatch>, f: FilePatch)
    requires f in files && Unbroken(f.path)
    ensures HeaderLine(f.path) in AllPieces(PatchLines(files))
  {
    PatchPiecesSplit(files);
    if files[0] == f {
      HeaderLineIsUnbroken(f.path);
      UnbrokenPiece(HeaderLine(f.path));
      PiecesAmong(FileLines(f), HeaderLine(f.path));
    } else {
      HeaderLineAmong(files[1..], f);
    }
  }

  lemma ReturnedPathIsCarriable(files: seq<FilePatch>, f: FilePatch)
    requires f in files && WellFormed(f) && Parse(Render(files)).Ok? && Parse(Render(files)).value.paths == Paths(files)
    ensures Carriable(f.path)
  {
    AcceptedPatchIsSound(Render(files));
    PathsMembers(files, f.path);
    SplitUnlines(PatchLines(files));
    HeaderLineAmong(files, f);
    HeaderRoundTrip(f.path);
    if Contains(f.path, SEPARATOR) {
      RenameIsRefused(START, AllPieces(PatchLines(files)), HeaderLine(f.path));
    }
  }

  lemma ReturnedTextsAreClean(r: Parsed, f: FilePatch)
    requires Returns(r, f) && AllClean(r.added, '+') && AllClean(r.deleted, '-')
    ensures CleanTexts(Changes(f.hunks))
  {
    TextsComeFromChanges(Changes(f.hunks));
  }

  lemma ReturnedAreReadable(files: seq<FilePatch>)
    requires forall f :: f in files ==> WellFormed(f) && Carriable(f.path)
    requires Parse(Render(files)).Ok? && Parse(Render(files)).value.paths == Paths(files)
    ensures forall f :: f in files ==> Readable(f)
  {
    SplitUnlines(PatchLines(files));
    RunCountsHeaders(START, AllPieces(PatchLines(files)));
    OneHeaderPerFile(files);
  }

  /** A patch read under the paths of its files is read as those files. */
  lemma PathsMatchMeansReadable(files: seq<FilePatch>)
    requires forall f :: f in files ==> WellFormed(f)
    requires Parse(Render(files)).Ok? && Parse(Render(files)).value.paths == Paths(files)
    ensures files != [] && Distinct(files) && !IsBinary(Render(files)) && forall f :: f in files ==> Readable(f)
  {
    forall g | g in files ensures Carriable(g.path) {
      ReturnedPathIsCarriable(files, g);
    }
    ReturnedAreReadable(files);
    AcceptedPatchIsSound(Render(files));
    forall i, j | 0 <= i < j < |files| ensures files[i].path != files[j].path {
      assert Paths(files)[i] != Paths(files)[j];
    }
  }

  lemma ReturnedMeansFaithful(files: seq<FilePatch>, f: FilePatch)
    requires (forall g :: g in files ==> WellFormed(g)) && f in files
    requires AllReturn(Parse(Render(files)), files)
    ensures FaithfulFile(f)
  {
    PathsMatchMeansReadable(files);
    ParseRendered(files);
    AcceptedPatchIsSound(Render(files));
    ReturnedTextsAreClean(Parse(Render(files)).value, f);
    CompleteMeansFaithful(f);
  }

  lemma FaithfulFilesReturn(files: seq<FilePatch>)
    requires (forall f :: f in files ==> WellFormed(f) && FaithfulFile(f))
    requires files != [] && Distinct(files) && !IsBinary(Render(files))
    ensures AllReturn(Parse(Render(files)), files)
  {
    forall f | f in files
      ensures Readable(f)
      ensures ReadTexts(f, '+') == Texts(Changes(f.hunks), '+') && ReadTexts(f, '-') == Texts(Changes(f.hunks), '-')
    {
      FaithfulFileIsRead(f);
    }
    ParseRendered(files);
  }

  /** The exact condition of the round trip. Printing files and parsing the result gives back all paths in
      order and all added and deleted lines exactly when there is a file, no path occurs twice, the text is
      not taken for a binary patch, no path holds a line break or " b/", no added text begins with `++` and
      no deleted one with `--`, none of them holds a character at which `splitlines` breaks, and no context
      or range line comes apart into something that reads as a header or a changed line. */
  lemma RoundTripExactly(files: seq<FilePatch>)
    requires forall f :: f in files ==> WellFormed(f)
    ensures AllReturn(Parse(Render(files)), files) <==>
      && files != [] && Distinct(files) && !IsBinary(Render(files))
      && forall f :: f in files ==> FaithfulFile(f)
  {
    if AllReturn(Parse(Render(files)), files) {
      PathsMatchMeansReadable(files);
      forall f | f in files ensures FaithfulFile(f) {
        ReturnedMeansFaithful(files, f);
      }
    } else if files != [] && Distinct(files) && !IsBinary(Render(files)) && forall f :: f in files ==> FaithfulFile(f) {
      FaithfulFilesReturn(files);
      assert false;
    }
  }

  // ---------- examples ----------

  /** A patch of one file with one hunk. */
  function OneFile(body: seq<Change>): FilePatch { FilePatch("f", [], [Hunk("", body)]) }

  /** Free of anything that could make a patch look binary. */
  predicate Textual(line: string) { 'G' !in line && '\0' !in line }

  lemma MarkHasG(content: string)
    requires IsBinary(content)
    ensures 'G' in content || '\0' in content
  {
    if i :| 0 <= i <= |content| && StartsWith(content[i..], BINARY_MARK) {
      assert content[i] == content[i..][0] == BINARY_MARK[0] == 'G';
    }
  }

  lemma {:induction false} TextualLines(lines: seq<string>)
    requires forall l :: l in lines ==> Textual(l)
    ensures Textual(Unlines(lines))
  {
    if lines != [] {
      FirstOrAfter(lines);
      TextualLines(lines[1..]);
      assert Textual(lines[0]) && Textual(NEWLINE);
    }
  }

  lemma ComponentsOf(c: char, rest: string, first: string, more: seq<string>)
    requires Components(rest) == [first] + more
    ensures Components([c] + rest) == if c == '/' then ["", first] + more else [[c] + first] + more
  {
    assert ([c] + rest)[1..] == rest && ([first] + more)[1..] == more;
    assert [""] + ([first] + more) == ["", first] + more;
  }

  lemma ShortPath()
    ensures Carriable("f")
  {
    ComponentsOf('f', "", "", []);
    assert ['f'] + "" == "f" && Components("f") == ["f"] + [];
    assert "f"[0..] == "f" && "f"[1..] == "";
  }

  lemma OneFileLines(body: seq<Change>)
    ensures FileLines(OneFile(body)) == ["diff --git a/f b/f", "@@ "] + BodyLines(body)
    ensures PatchLines([OneFile(body)]) == FileLines(OneFile(body))
    ensures HunkLines(OneFile(body).hunks) == ["@@ "] + BodyLines(body)
    ensures Changes(OneFile(body).hunks) == body
  {
    var f := OneFile(body);
    assert f.hunks[1..] == [] && HUNK + "" == HUNK;
    assert HunkLines(f.hunks) == [HUNK] + BodyLines(body) + [] && Changes(f.hunks) == body + [];
    assert HeaderLine("f") == "diff --git a/f b/f";
    assert [f][1..] == [] && FileLines(f) + [] == FileLines(f);
  }

  lemma OpeningLine(sign: char)
    requires sign in {'+', '-'}
    ensures Pieces("@@ ") == ["@@ "] && !IsHeader("@@ ") && MarkedTexts(["@@ "], sign) == []
  {
    HunkMarkIsUnbroken();
    UnbrokenPiece("@@ ");
    FirstOf('@', "@ ");
    assert ['@'] + "@ " == "@@ " && ["@@ "][1..] == [];
  }

  lemma OneFileIsRead(body: seq<Change>, sign: char)
    requires sign in {'+', '-'} && NoHeaders(AllPieces(BodyLines(body)))
    ensures Readable(OneFile(body)) && ReadTexts(OneFile(body), sign) == MarkedTexts(AllPieces(BodyLines(body)), sign)
  {
    ShortPath();
    OneFileLines(body);
    OpeningLine(sign);
    assert (["@@ "] + BodyLines(body))[1..] == BodyLines(body);
    MarkedAppend(["@@ "], AllPieces(BodyLines(body)), sign);
  }

  lemma OneFileIsText(body: seq<Change>)
    requires forall l :: l in BodyLines(body) ==> Textual(l)
    ensures !IsBinary(Render([OneFile(body)]))
  {
    OneFileLines(body);
    assert Textual("diff --git a/f b/f") && Textual("@@ ");
    TextualLines(PatchLines([OneFile(body)]));
    if IsBinary(Render([OneFile(body)])) {
      MarkHasG(Render([OneFile(body)]));
    }
  }

  /** What is read back from a file of one hunk. */
  predicate ReadBack(r: Result<Parsed>, added: seq<string>, deleted: seq<string>) {
    && r.Ok? && r.value.paths == ["f"] && "f" in r.value.added && "f" in r.value.deleted
    && r.value.added["f"] == added && r.value.deleted["f"] == deleted
  }

  lemma OneFileParsed(body: seq<Change>)
    requires NoHeaders(AllPieces(BodyLines(body))) && forall l :: l in BodyLines(body) ==> Textual(l)
    ensures ReadBack(Parse(Render([OneFile(body)])),
                     MarkedTexts(AllPieces(BodyLines(body)), '+'), MarkedTexts(AllPieces(BodyLines(body)), '-'))
  {
    OneFileIsRead(body, '+');
    OneFileIsRead(body, '-');
    OneFileIsText(body);
    ParseRendered([OneFile(body)]);
    assert Paths([OneFile(body)]) == ["f"] && OneFile(body) in [OneFile(body)];
  }

  /** An added line `++i` is lost: the parsed patch holds no added line at all. */
  lemma MarkerLikeLineIsLost(body: seq<Change>)
    requires body == [Added("++i")]
    ensures ReadBack(Parse(Render([OneFile(body)])), [], [])
  {
    assert body[1..] == [] && ['+'] + "++i" == "+++i" && BodyLines(body) == ["+++i"];
    UnbrokenPieces(["+++i"]);
    SignedLine("++i", '+');
    FirstOf('+', "++i");
    assert StartsWith("++i", ['+', '+']) && ["+++i"][1..] == [];
    OneFileParsed(body);
  }

  lemma SpacedPath()
    ensures Components("a b/c") == ["a b", "c"] && Contains("a b/c", SEPARATOR)
  {
    ComponentsOf('c', "", "", []);
    assert ['c'] + "" == "c";
    ComponentsOf('/', "c", "c", []);
    assert ['/'] + "c" == "/c";
    ComponentsOf('b', "/c", "", ["c"]);
    assert ['b'] + "/c" == "b/c" && ['b'] + "" == "b";
    ComponentsOf(' ', "b/c", "b", ["c"]);
    assert [' '] + "b/c" == " b/c" && [' '] + "b" == " b";
    ComponentsOf('a', " b/c", " b", ["c"]);
    assert ['a'] + " b/c" == "a b/c" && ['a'] + " b" == "a b";
    assert "a b/c"[1..] == " b/c" && StartsWith("a b/c"[1..], SEPARATOR);
  }

  /** A valid path with " b/" in it is refused as a rename. */
  lemma SeparatorInPathIsRefused()
    ensures ValidPath("a b/c") && Step(START, HeaderLine("a b/c")).Err? && Step(START, HeaderLine("a b/c")).error.Rename?
  {
    SpacedPath();
    HeaderRoundTrip("a b/c");
  }
}
