/** The consumer-replacement counts of `evaluate` in scripts/check_canonical_ndt_convergence.py, against
    the text the patch really produces. */
module ConsumerCounts {
  import opened Text
  import opened Patch
  import opened PatchRoundTrip

  // ---------- applying a patch ----------

  // A script is the whole file as a list of changes; the hunks of a patch leave out untouched lines.

  function OldLines(script: seq<Change>): seq<string> {
    if script == [] then []
    else (if script[0].Context? || script[0].Deleted? then [script[0].text] else []) + OldLines(script[1..])
  }

  function NewLines(script: seq<Change>): seq<string> {
    if script == [] then []
    else (if script[0].Context? || script[0].Added? then [script[0].text] else []) + NewLines(script[1..])
  }

  /** The hunks of a file describe a script when both delete the same lines and add the same lines. */
  predicate Describes(f: FilePatch, script: seq<Change>) {
    && Texts(Changes(f.hunks), '-') == Texts(script, '-')
    && Texts(Changes(f.hunks), '+') == Texts(script, '+')
  }

  lemma CountOne(line: string, rest: seq<string>, needle: string)
    requires needle != ""
    ensures CountLines([line] + rest, needle) == Count(line, needle) + CountLines(rest, needle)
    ensures CountLines([] + rest, needle) == CountLines(rest, needle)
  {
    assert ([line] + rest)[1..] == rest && [] + rest == rest;
  }

  /** A script moves the number of occurrences by those it adds less those it deletes. */
  lemma {:induction false} ScriptMovesCount(script: seq<Change>, needle: string)
    requires needle != ""
    ensures CountLines(NewLines(script), needle) + CountLines(Texts(script, '-'), needle) ==
            CountLines(OldLines(script), needle) + CountLines(Texts(script, '+'), needle)
    ensures CountLines(Texts(script, '-'), needle) <= CountLines(OldLines(script), needle)
  {
    if script != [] {
      ScriptMovesCount(script[1..], needle);
      var rest := script[1..];
      var text := if script[0].NoFinalNewline? then "" else script[0].text;
      CountOne(text, OldLines(rest), needle);
      CountOne(text, NewLines(rest), needle);
      CountOne(text, Texts(rest, '+'), needle);
      CountOne(text, Texts(rest, '-'), needle);
    }
  }

  // ---------- the check ----------

  datatype Replacement = Replacement(path: string, beforeCount: int, afterCount: int)

  datatype Counts = Counts(current: int, deleted: int, addedBefore: int, addedAfter: int, virtualAfter: int, passed: bool)

  /** The counts one replacement is judged by. */
  function CountsOf(parent: Parsed, source: string, before: string, after: string, r: Replacement): Counts
    requires before != "" && after != ""
    requires r.path in parent.deleted && r.path in parent.added
  {
    var current: int := Count(source, before);
    var deleted := CountLines(parent.deleted[r.path], before);
    var addedBefore := CountLines(parent.added[r.path], before);
    var addedAfter := CountLines(parent.added[r.path], after);
    var virtualAfter := current - deleted + addedBefore;
    Counts(current, deleted, addedBefore, addedAfter, virtualAfter,
           current == r.beforeCount && deleted == r.beforeCount && addedBefore == 0 && addedAfter == r.beforeCount
           && virtualAfter == r.afterCount)
  }

  /** One result per replacement, in order. */
  method CheckReplacements(parent: Parsed, sources: map<string, string>, before: string, after: string,
                           replacements: seq<Replacement>) returns (results: seq<Counts>)
    requires before != "" && after != ""
    requires forall r :: r in replacements ==> r.path in parent.deleted && r.path in parent.added && r.path in sources
    ensures |results| == |replacements|
    ensures forall i :: 0 <= i < |results| ==>
      results[i] == CountsOf(parent, sources[replacements[i].path], before, after, replacements[i])
  {
    results := [];
    for i := 0 to |replacements|
      invariant |results| == i
      invariant forall k :: 0 <= k < i ==>
        results[k] == CountsOf(parent, sources[replacements[k].path], before, after, replacements[k])
    {
      var r := replacements[i];
      var current: int := Count(sources[r.path], before);
      var deleted := SumCounts(parent.deleted[r.path], before);
      var addedBefore := SumCounts(parent.added[r.path], before);
      var addedAfter := SumCounts(parent.added[r.path], after);
      var virtualAfter := current - deleted + addedBefore;
      var passed := current == r.beforeCount && deleted == r.beforeCount && addedBefore == 0
                    && addedAfter == r.beforeCount && virtualAfter == r.afterCount;
      results := results + [Counts(current, deleted, addedBefore, addedAfter, virtualAfter, passed)];
    }
  }

  method SumCounts(lines: seq<string>, needle: string) returns (total: nat)
    requires needle != ""
    ensures total == CountLines(lines, needle)
  {
    total := 0;
    for i := 0 to |lines|
      invariant total + CountLines(lines[i..], needle) == CountLines(lines, needle)
    {
      assert lines[i..][1..] == lines[i + 1..];
      total := total + Count(lines[i], needle);
    }
  }

  /** The setting of the theorems: a printed patch that is read under the paths of its files, which the script
      checks as well, and a file of it with the script that it describes. */
  ghost predicate Setting(files: seq<FilePatch>, f: FilePatch, script: seq<Change>) {
    && (forall g :: g in files ==> WellFormed(g))
    && Parse(Render(files)).Ok? && Parse(Render(files)).value.paths == Paths(files)
    && f in files && Describes(f, script)
  }

  lemma ParsedLists(files: seq<FilePatch>, f: FilePatch, script: seq<Change>)
    requires Setting(files, f, script)
    ensures var parent := Parse(Render(files)).value;
      && f.path in parent.added && parent.added[f.path] == ReadTexts(f, '+')
      && f.path in parent.deleted && parent.deleted[f.path] == ReadTexts(f, '-')
  {
    PathsMatchMeansReadable(files);
    ParseRendered(files);
  }

  /** The occurrences in a file's changed lines that its parsed lists do not show; negative if they show
      occurrences that no changed line holds. */
  function Missed(f: FilePatch, sign: char, needle: string): int
    requires needle != ""
  {
    CountLines(Texts(Changes(f.hunks), sign), needle) - CountLines(ReadTexts(f, sign), needle)
  }

  /** The virtual count is off the number of occurrences in the text the patch produces by exactly the deleted
      occurrences missed less the added ones missed; it is right for every file whose lines come back. */
  lemma VirtualCountAgainstReal(
      files: seq<FilePatch>, f: FilePatch, script: seq<Change>, oldEnd: bool, newEnd: bool,
      before: string, after: string, r: Replacement)
    requires Setting(files, f, script) && OneLine(before) && after != "" && r.path == f.path
    ensures var parent := Parse(Render(files)).value;
      var source, result := FileText(OldLines(script), oldEnd), FileText(NewLines(script), newEnd);
      && r.path in parent.deleted && r.path in parent.added
      && var counts := CountsOf(parent, source, before, after, r);
        && counts.virtualAfter == Count(result, before) + Missed(f, '-', before) - Missed(f, '+', before)
        && (FaithfulFile(f) ==> counts.virtualAfter == Count(result, before))
  {
    ParsedLists(files, f, script);
    CountOfFile(OldLines(script), oldEnd, before);
    CountOfFile(NewLines(script), newEnd, before);
    ScriptMovesCount(script, before);
    if FaithfulFile(f) {
      FaithfulFileIsRead(f);
    }
  }

  lemma RealCounts(script: seq<Change>, oldEnd: bool, newEnd: bool, needle: string)
    requires OneLine(needle)
    ensures var source, result := FileText(OldLines(script), oldEnd), FileText(NewLines(script), newEnd);
      && Count(result, needle) ==
           Count(source, needle) + CountLines(Texts(script, '+'), needle) - CountLines(Texts(script, '-'), needle)
      && CountLines(Texts(script, '-'), needle) <= Count(source, needle)
  {
    CountOfFile(OldLines(script), oldEnd, needle);
    CountOfFile(NewLines(script), newEnd, needle);
    ScriptMovesCount(script, needle);
  }

  /** A passing replacement claims an after-count of zero. The old name is then really gone exactly when no
      added line holds it and the deleted lines hold all its occurrences. */
  lemma PassedReplacementExactly(
      files: seq<FilePatch>, f: FilePatch, script: seq<Change>, oldEnd: bool, newEnd: bool,
      before: string, after: string, r: Replacement)
    requires Setting(files, f, script) && OneLine(before) && after != "" && r.path == f.path
    ensures var parent := Parse(Render(files)).value;
      var source, result := FileText(OldLines(script), oldEnd), FileText(NewLines(script), newEnd);
      && r.path in parent.deleted && r.path in parent.added
      && (CountsOf(parent, source, before, after, r).passed ==>
          && r.afterCount == 0
          && (Count(result, before) == 0 <==>
                && CountLines(Texts(script, '+'), before) == 0
                && CountLines(Texts(script, '-'), before) == r.beforeCount))
  {
    ParsedLists(files, f, script);
    PassedCounts(Parse(Render(files)).value, FileText(OldLines(script), oldEnd), before, after, r);
    RealCounts(script, oldEnd, newEnd, before);
  }

  /** For a file whose lines come back the check passes exactly when the source and the deleted lines hold the old
      name the expected number of times, no added line holds it, the added lines hold the new name that number of
      times, and an after-count of zero is claimed. */
  lemma PassesExactly(
      files: seq<FilePatch>, f: FilePatch, script: seq<Change>, source: string, before: string, after: string, r: Replacement)
    requires Setting(files, f, script) && FaithfulFile(f) && before != "" && after != "" && r.path == f.path
    ensures var parent := Parse(Render(files)).value;
      && r.path in parent.deleted && r.path in parent.added
      && (CountsOf(parent, source, before, after, r).passed <==>
            && Count(source, before) == CountLines(Texts(script, '-'), before) == r.beforeCount
            && CountLines(Texts(script, '+'), before) == 0 && CountLines(Texts(script, '+'), after) == r.beforeCount
            && r.afterCount == 0)
  {
    ParsedLists(files, f, script);
    FaithfulFileIsRead(f);
  }

  lemma PassedCounts(parent: Parsed, source: string, before: string, after: string, r: Replacement)
    requires before != "" && after != "" && r.path in parent.deleted && r.path in parent.added
    ensures CountsOf(parent, source, before, after, r).passed ==> Count(source, before) == r.beforeCount && r.afterCount == 0
  {
  }

  /** For a file whose lines come back a passing replacement is complete: the old name is gone, and the
      new name occurs as often as before, less the deleted occurrences, plus the expected number. */
  lemma PassedReplacementIsComplete(
      files: seq<FilePatch>, f: FilePatch, script: seq<Change>, oldEnd: bool, newEnd: bool,
      before: string, after: string, r: Replacement)
    requires Setting(files, f, script) && FaithfulFile(f) && OneLine(before) && OneLine(after) && r.path == f.path
    ensures var parent := Parse(Render(files)).value;
      var source, result := FileText(OldLines(script), oldEnd), FileText(NewLines(script), newEnd);
      && r.path in parent.deleted && r.path in parent.added
      && (CountsOf(parent, source, before, after, r).passed ==>
          && Count(result, before) == 0
          && Count(result, after) == Count(source, after) - CountLines(Texts(script, '-'), after) + r.beforeCount)
  {
    ParsedLists(files, f, script);
    FaithfulFileIsRead(f);
    RealCounts(script, oldEnd, newEnd, before);
    RealCounts(script, oldEnd, newEnd, after);
  }

  // ---------- examples ----------

  lemma CountOf(c: char, rest: string, d: char)
    ensures Count([c] + rest, [d]) == (if c == d then 1 else 0) + Count(rest, [d])
  {
    var s := [c] + rest;
    assert s[1..] == rest && s[0] == c && [d][0] == d;
  }

  lemma CountOfLetter(c: char, d: char)
    ensures Count([c], [d]) == if c == d then 1 else 0
  {
    CountOf(c, "", d);
    assert [c] + "" == [c];
  }

  /** A body that replaces the line `o` by `n` and adds one more line. */
  predicate IsExample(script: seq<Change>, extra: string) { script == [Deleted("o"), Added(extra), Added("n")] }

  lemma ExampleBody(script: seq<Change>, extra: string)
    requires IsExample(script, extra)
    ensures BodyLines(script) == ["-o", ['+'] + extra, "+n"]
  {
    var none: seq<Change> := [];
    BodyLinesStep(Added("n"), none);
    BodyLinesStep(Added(extra), [Added("n")] + none);
    BodyLinesStep(Deleted("o"), [Added(extra)] + ([Added("n")] + none));
    assert script == [Deleted("o")] + ([Added(extra)] + ([Added("n")] + none));
    assert ['-'] + "o" == "-o" && ['+'] + "n" == "+n";
  }

  lemma BodyLinesStep(c: Change, rest: seq<Change>)
    ensures BodyLines([c] + rest) == [ChangeLine(c)] + BodyLines(rest)
  {
    assert ([c] + rest)[0] == c && ([c] + rest)[1..] == rest;
  }

  lemma LinesStep(c: Change, rest: seq<Change>)
    requires !c.NoFinalNewline?
    ensures OldLines([c] + rest) == (if c.Added? then [] else [c.text]) + OldLines(rest)
    ensures NewLines([c] + rest) == (if c.Deleted? then [] else [c.text]) + NewLines(rest)
  {
    assert ([c] + rest)[0] == c && ([c] + rest)[1..] == rest;
  }

  lemma ExampleLines(script: seq<Change>, extra: string)
    requires IsExample(script, extra)
    ensures OldLines(script) == ["o"] && NewLines(script) == [extra] + ["n"]
  {
    var none: seq<Change> := [];
    LinesStep(Added("n"), none);
    LinesStep(Added(extra), [Added("n")] + none);
    LinesStep(Deleted("o"), [Added(extra)] + ([Added("n")] + none));
    assert script == [Deleted("o")] + ([Added(extra)] + ([Added("n")] + none));
  }

  lemma ExampleFiles(script: seq<Change>, extra: string)
    requires IsExample(script, extra)
    ensures FileText(OldLines(script), true) == "o" + NEWLINE
    ensures Count(FileText(NewLines(script), true), "o") == Count(extra, "o")
  {
    ExampleLines(script, extra);
    CountOfFile(NewLines(script), true, "o");
    CountOne(extra, ["n"], "o");
    CountOfLines("n", "o");
    CountOfLetter('n', 'o');
  }

  lemma CountOfLines(line: string, needle: string)
    requires needle != ""
    ensures CountLines([line], needle) == Count(line, needle)
  {
    CountOne(line, [], needle);
    assert [line] + [] == [line];
  }

  lemma PlainChange(text: string, sign: char)
    requires IsClean(text, sign) && sign in {'+', '-'}
    ensures Pieces([sign] + text) == [[sign] + text] && !IsHeader([sign] + text)
    ensures MarkedText([sign] + text, '+') == if sign == '+' then [text] else []
    ensures MarkedText([sign] + text, '-') == if sign == '-' then [text] else []
  {
    CleanLine(text, sign);
    SignedLine(text, sign);
    FirstOf(sign, text);
  }

  /** The check for `o` and `n` passes on what is read of the patch, and the new text holds the `o` of the
      extra line. */
  ghost predicate PassesWithLeftover(script: seq<Change>) {
    var r, source, result := Parse(Render([OneFile(script)])), FileText(OldLines(script), true), FileText(NewLines(script), true);
    && r.Ok? && "f" in r.value.deleted && "f" in r.value.added
    && CountsOf(r.value, source, "o", "n", Replacement("f", 1, 0)).passed
    && Count(result, "o") == 1
  }

  /** It does so when nothing read of the extra line holds either name. */
  lemma ExamplePasses(script: seq<Change>, extra: string, kept: seq<string>)
    requires IsExample(script, extra) && 'G' !in extra && '\0' !in extra && Count(extra, "o") == 1
    requires NoHeaders(Pieces(['+'] + extra)) && MarkedTexts(Pieces(['+'] + extra), '-') == []
    requires MarkedTexts(Pieces(['+'] + extra), '+') == kept && CountLines(kept, "o") == 0 && CountLines(kept, "n") == 0
    ensures PassesWithLeftover(script)
  {
    ExamplePieces(script, extra, kept);
    ExampleIsTextual(script, extra);
    OneFileParsed(script);
    ExampleCounts(kept);
    ExampleFiles(script, extra);
  }

  lemma ExampleIsTextual(script: seq<Change>, extra: string)
    requires IsExample(script, extra) && 'G' !in extra && '\0' !in extra
    ensures forall l :: l in BodyLines(script) ==> Textual(l)
  {
    ExampleBody(script, extra);
    assert Textual("-o") && Textual("+n") && Textual(['+'] + extra);
  }

  lemma ExamplePieces(script: seq<Change>, extra: string, kept: seq<string>)
    requires IsExample(script, extra)
    requires NoHeaders(Pieces(['+'] + extra)) && MarkedTexts(Pieces(['+'] + extra), '-') == []
    requires MarkedTexts(Pieces(['+'] + extra), '+') == kept
    ensures NoHeaders(AllPieces(BodyLines(script)))
    ensures MarkedTexts(AllPieces(BodyLines(script)), '+') == kept + ["n"]
    ensures MarkedTexts(AllPieces(BodyLines(script)), '-') == ["o"]
  {
    var middle := Pieces(['+'] + extra);
    ExampleBody(script, extra);
    ExampleEnds();
    ThreeLines("-o", ['+'] + extra, "+n");
    MarkedOfThree("-o", middle, "+n", '+');
    MarkedOfThree("-o", middle, "+n", '-');
  }

  lemma ExampleEnds()
    ensures Pieces("-o") == ["-o"] && !IsHeader("-o") && MarkedText("-o", '+') == [] && MarkedText("-o", '-') == ["o"]
    ensures Pieces("+n") == ["+n"] && !IsHeader("+n") && MarkedText("+n", '+') == ["n"] && MarkedText("+n", '-') == []
  {
    LettersAreClean();
    assert ['-'] + "o" == "-o" && ['+'] + "n" == "+n";
    PlainChange("o", '-');
    PlainChange("n", '+');
  }

  lemma LettersAreClean()
    ensures IsClean("o", '-') && IsClean("n", '+')
  {
  }

  lemma ThreeLines(a: string, b: string, c: string)
    requires Pieces(a) == [a] && Pieces(c) == [c]
    ensures AllPieces([a, b, c]) == [a] + (Pieces(b) + [c])
  {
    assert [a, b, c][1..] == [b, c] && [b, c][1..] == [c] && [c][1..] == [];
    assert AllPieces([c]) == [c] + [] && AllPieces([b, c]) == Pieces(b) + [c];
  }

  lemma MarkedOfThree(a: string, middle: seq<string>, c: string, sign: char)
    ensures MarkedTexts([a] + (middle + [c]), sign) == MarkedText(a, sign) + (MarkedTexts(middle, sign) + MarkedText(c, sign))
  {
    MarkedAppend(middle, [c], sign);
    assert [c][1..] == [] && MarkedTexts([c], sign) == MarkedText(c, sign) + [];
    assert ([a] + (middle + [c]))[1..] == middle + [c];
  }

  lemma ExampleCounts(kept: seq<string>)
    requires CountLines(kept, "o") == 0 && CountLines(kept, "n") == 0
    ensures Count("o" + NEWLINE, "o") == 1 && CountLines(["o"], "o") == 1
    ensures CountLines(kept + ["n"], "o") == 0 && CountLines(kept + ["n"], "n") == 1
  {
    CountOf('o', NEWLINE, 'o');
    CountOfLetter('\n', 'o');
    CountOfLetter('o', 'o');
    CountOfLetter('n', 'o');
    CountOfLetter('n', 'n');
    CountOfLines("o", "o");
    CountOfLines("n", "o");
    CountOfLines("n", "n");
    CountLinesAppend(kept, ["n"], "o");
    CountLinesAppend(kept, ["n"], "n");
  }

  /** An added line `++o` is passed over: the check passes with the old name left. */
  lemma PassedWithTheOldNameLeft(script: seq<Change>)
    requires IsExample(script, "++o")
    ensures PassesWithLeftover(script)
  {
    MarkerLinePieces();
    MarkerCount();
    ExamplePasses(script, "++o", []);
  }

  lemma MarkerCount()
    ensures Count("++o", "o") == 1
  {
    CountOfLetter('o', 'o');
    CountOf('+', "o", 'o');
    CountOf('+', ['+'] + "o", 'o');
    assert ['+'] + (['+'] + "o") == "++o";
  }

  lemma MarkerLinePieces()
    ensures NoHeaders(Pieces(['+'] + "++o")) && MarkedTexts(Pieces(['+'] + "++o"), '+') == []
    ensures MarkedTexts(Pieces(['+'] + "++o"), '-') == []
  {
    var line := ['+'] + "++o";
    assert line == "+++o" && Unbroken(line);
    UnbrokenPiece(line);
    SignedLine("++o", '+');
    FirstOf('+', "++o");
    assert StartsWith("++o", ['+', '+']) && [line][1..] == [];
  }

  /** An added line with a form feed comes apart: the check passes with the old name left, although no added
      line begins with `++`. */
  lemma PassedWithAFormFeed(script: seq<Change>)
    requires IsExample(script, "x\U{000c}o")
    ensures PassesWithLeftover(script)
  {
    FormFeedPieces();
    FormFeedCounts();
    ExamplePasses(script, "x\U{000c}o", ["x"]);
  }

  lemma FormFeedCounts()
    ensures CountLines(["x"], "o") == 0 && CountLines(["x"], "n") == 0 && Count("x\U{000c}o", "o") == 1
  {
    CountOfLetter('x', 'o');
    CountOfLetter('x', 'n');
    CountOfLines("x", "o");
    CountOfLines("x", "n");
    CountOfLetter('o', 'o');
    CountOf('\U{000c}', "o", 'o');
    CountOf('x', ['\U{000c}'] + "o", 'o');
    assert ['x'] + (['\U{000c}'] + "o") == "x\U{000c}o";
  }

  lemma FormFeedPieces()
    ensures NoHeaders(Pieces(['+'] + "x\U{000c}o")) && MarkedTexts(Pieces(['+'] + "x\U{000c}o"), '+') == ["x"]
    ensures MarkedTexts(Pieces(['+'] + "x\U{000c}o"), '-') == []
  {
    var line := ['+'] + "x\U{000c}o";
    FormFeedSplits(line);
    SignedLine("x", '+');
    FirstOf('+', "x");
    FirstOf('o', "");
    assert ['+'] + "x" == "+x" && ['o'] + "" == "o" && ["+x", "o"][1..] == ["o"] && ["o"][1..] == [];
    assert !StartsWith("x", ['+', '+']);
    assert MarkedTexts(["o"], '+') == [] && MarkedTexts(["o"], '-') == [];
  }

  lemma FormFeedSplits(line: string)
    requires line == "+x\U{000c}o"
    ensures Pieces(line) == ["+x", "o"]
  {
    var t := line + NEWLINE;
    assert t[..2] == "+x" && t[2] == '\U{000c}' && t[3..] == "o" + NEWLINE;
    LineEndIs(t, 2);
    SplitFirst(t);
    UnbrokenPiece("o");
  }
}
