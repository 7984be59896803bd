/** The string operations the scripts lean on: `splitlines`, `join`, `startswith`, `in` and `count`. */
module Text {
  import opened Sequences

  const NEWLINE: string := "\n"

  /** The characters `str.splitlines` breaks at. */
  predicate IsBreak(c: char) {
    c in {'\n', '\r', '\U{000b}', '\U{000c}', '\U{001c}', '\U{001d}', '\U{001e}', '\U{0085}', '\U{2028}', '\U{2029}'}
  }

  predicate Unbroken(line: string) { forall c :: c in line ==> !IsBreak(c) }

  /** The first line ends before this position. */
  function LineEnd(s: string): (n: nat)
    ensures n <= |s| && Unbroken(s[..n]) && (n < |s| ==> IsBreak(s[n]))
  {
    if s == "" || IsBreak(s[0]) then 0
    else
      var n := 1 + LineEnd(s[1..]);
      assert s[..n] == [s[0]] + s[1..][..n - 1];
      n
  }

  /** Where the text goes on after the break at n; a carriage return and a newline are one break. */
  function AfterBreak(s: string, n: nat): (m: nat)
    requires n < |s|
    ensures n < m <= |s|
  {
    if s[n] == '\r' && n + 1 < |s| && s[n + 1] == '\n' then n + 2 else n + 1
  }

  /** `str.splitlines`. */
  function SplitLines(s: string): seq<string> {
    if s == "" then []
    else
      var n := LineEnd(s);
      if n == |s| then [s] else [s[..n]] + SplitLines(s[AfterBreak(s, n)..])
  }

  /** Every line with its newline. */
  function Unlines(lines: seq<string>): string {
    if lines == [] then "" else lines[0] + NEWLINE + Unlines(lines[1..])
  }

  /** `'\n'.join(lines)`. */
  function Join(lines: seq<string>): string {
    if lines == [] then "" else if |lines| == 1 then lines[0] else lines[0] + NEWLINE + Join(lines[1..])
  }

  predicate StartsWith(s: string, prefix: string) { prefix <= s }

  predicate Contains(s: string, needle: string) { exists i :: 0 <= i <= |s| && StartsWith(s[i..], needle) }

  lemma LineEndIs(s: string, n: nat)
    requires n <= |s| && Unbroken(s[..n]) && (n < |s| ==> IsBreak(s[n]))
    ensures LineEnd(s) == n
  {
    var m := LineEnd(s);
    assert forall i :: 0 <= i < n ==> s[i] in s[..n];
    assert forall i :: 0 <= i < m ==> s[i] in s[..m];
  }

  /** The lines that one written line is read back as: more than one if it holds a break of its own. */
  function Pieces(line: string): seq<string> { SplitLines(line + NEWLINE) }

  function AllPieces(lines: seq<string>): seq<string> {
    if lines == [] then [] else Pieces(lines[0]) + AllPieces(lines[1..])
  }

  lemma LineEndInFront(line: string, rest: string)
    ensures LineEnd(line + NEWLINE + rest) == LineEnd(line + NEWLINE) <= |line|
  {
    var s, t, n := line + NEWLINE + rest, line + NEWLINE, LineEnd(line + NEWLINE);
    assert forall i :: 0 <= i < n ==> t[i] in t[..n];
    assert t[|line|] == '\n';
    assert s[..n] == t[..n] && s[n] == t[n];
    LineEndIs(s, n);
  }

  lemma SplitFirst(s: string)
    requires LineEnd(s) < |s|
    ensures SplitLines(s) == [s[..LineEnd(s)]] + SplitLines(s[AfterBreak(s, LineEnd(s))..])
  {
  }

  /** Text is split line by line. */
  lemma {:induction false} SplitAtNewline(line: string, rest: string)
    ensures SplitLines(line + NEWLINE + rest) == Pieces(line) + SplitLines(rest)
    decreases |line|
  {
    var s, t, n := line + NEWLINE + rest, line + NEWLINE, LineEnd(line + NEWLINE);
    LineEndInFront(line, rest);
    SplitFirst(s);
    SplitFirst(t);
    var next := AfterBreak(t, n);
    SameBreak(line, rest, n);
    Tails(line, rest, next);
    if next <= |line| {
      SplitAtNewline(line[next..], rest);
    }
    Regroup([t[..n]], SplitLines(t[next..]), SplitLines(rest));
  }

  lemma SameBreak(line: string, rest: string, n: nat)
    requires n <= |line|
    ensures (line + NEWLINE + rest)[..n] == (line + NEWLINE)[..n]
    ensures AfterBreak(line + NEWLINE + rest, n) == AfterBreak(line + NEWLINE, n)
  {
    var s, t := line + NEWLINE + rest, line + NEWLINE;
    assert s[n] == t[n] && (n < |line| ==> s[n + 1] == t[n + 1]) && t[|line|] == '\n';
  }

  lemma Tails(line: string, rest: string, m: nat)
    requires m <= |line| + 1
    ensures m <= |line| ==> (line + NEWLINE)[m..] == line[m..] + NEWLINE && (line + NEWLINE + rest)[m..] == line[m..] + NEWLINE + rest
    ensures m == |line| + 1 ==> (line + NEWLINE)[m..] == "" && (line + NEWLINE + rest)[m..] == rest
  {
  }

  /** Splitting written lines. */
  lemma {:induction false} SplitUnlines(lines: seq<string>)
    ensures SplitLines(Unlines(lines)) == AllPieces(lines)
  {
    if lines != [] {
      SplitUnlines(lines[1..]);
      SplitAtNewline(lines[0], Unlines(lines[1..]));
    }
  }

  lemma {:induction false} AllPiecesAppend(a: seq<string>, b: seq<string>)
    ensures AllPieces(a + b) == AllPieces(a) + AllPieces(b)
  {
    if a == [] {
      assert a + b == b;
    } else {
      assert (a + b)[0] == a[0] && (a + b)[1..] == a[1..] + b;
      AllPiecesAppend(a[1..], b);
    }
  }

  lemma UnbrokenPiece(line: string)
    requires Unbroken(line)
    ensures Pieces(line) == [line]
  {
    var t := line + NEWLINE;
    assert t[..|line|] == line && t[|line|] == '\n' && t[|line| + 1..] == "";
    LineEndIs(t, |line|);
    SplitFirst(t);
    assert SplitLines("") == [];
  }

  lemma {:induction false} UnbrokenPieces(lines: seq<string>)
    requires forall l :: l in lines ==> Unbroken(l)
    ensures AllPieces(lines) == lines
  {
    if lines != [] {
      UnbrokenPiece(lines[0]);
      UnbrokenPieces(lines[1..]);
      assert lines == [lines[0]] + lines[1..];
    }
  }

  lemma {:induction false} SplitLinesAreUnbroken(s: string)
    ensures forall l :: l in SplitLines(s) ==> Unbroken(l)
    decreases |s|
  {
    if s != "" {
      var n := LineEnd(s);
      if n == |s| {
        assert s[..n] == s;
      } else {
        SplitLinesAreUnbroken(s[AfterBreak(s, n)..]);
      }
    }
  }

  /** The first piece runs to the first break. */
  lemma FirstPiece(line: string)
    ensures LineEnd(line + NEWLINE) <= |line|
    ensures Pieces(line) != [] && Pieces(line)[0] == line[..LineEnd(line + NEWLINE)]
  {
    var t := line + NEWLINE;
    LineEndInFront(line, "");
    SplitFirst(t);
    assert t[..LineEnd(t)] == line[..LineEnd(t)];
  }

  /** Splitting inverts joining when the last line is not empty. */
  lemma {:induction false} SplitJoin(lines: seq<string>)
    requires forall l :: l in lines ==> Unbroken(l)
    requires lines != [] ==> lines[|lines| - 1] != ""
    ensures SplitLines(Join(lines)) == lines
  {
    if |lines| == 1 {
      assert lines[0] in lines && lines[0][..|lines[0]|] == lines[0];
      LineEndIs(lines[0], |lines[0]|);
    } else if |lines| > 1 {
      SplitJoin(lines[1..]);
      SplitAtNewline(lines[0], Join(lines[1..]));
      UnbrokenPiece(lines[0]);
      assert lines == [lines[0]] + lines[1..];
    }
  }

  // ---------- str.count ----------

  /** `s.count(needle)` for a nonempty needle: matches are taken from the left and do not overlap. */
  function Count(s: string, needle: string): nat
    requires needle != ""
    decreases |s|
  {
    if |s| < |needle| then 0
    else if StartsWith(s, needle) then 1 + Count(s[|needle|..], needle)
    else Count(s[1..], needle)
  }

  predicate IsAt(needle: string, s: string, p: int) { 0 <= p <= |s| - |needle| && s[p..p + |needle|] == needle }

  /** Places of the needle that do not overlap, in order. */
  ghost predicate ArePlacesOf(needle: string, s: string, at: seq<int>) {
    && (forall k :: 0 <= k < |at| ==> IsAt(needle, s, at[k]))
    && (forall j, k :: 0 <= j < k < |at| ==> at[j] + |needle| <= at[k])
  }

  lemma IsAtShifts(needle: string, s: string, n: nat, p: int)
    requires n <= |s| && p >= 0
    ensures IsAt(needle, s[n..], p) <==> IsAt(needle, s, p + n)
  {
    if p <= |s| - n - |needle| {
      assert s[n..][p..p + |needle|] == s[p + n..p + n + |needle|];
    }
  }

  function Shifted(at: seq<int>, n: int): seq<int> { seq(|at|, k requires 0 <= k < |at| => at[k] + n) }

  lemma PlacesMoveOn(needle: string, s: string, n: nat, at: seq<int>)
    requires n <= |s| && ArePlacesOf(needle, s[n..], at)
    ensures ArePlacesOf(needle, s, Shifted(at, n)) && forall k :: 0 <= k < |at| ==> Shifted(at, n)[k] >= n
  {
    hide IsAt;
    forall k | 0 <= k < |at| ensures at[k] >= 0 && IsAt(needle, s, Shifted(at, n)[k]) {
      PlaceInside(needle, s[n..], at[k]);
      IsAtShifts(needle, s, n, at[k]);
    }
  }

  lemma PlaceInside(needle: string, s: string, p: int)
    requires IsAt(needle, s, p)
    ensures p >= 0
  {
  }

  lemma PlacesMoveBack(needle: string, s: string, n: nat, at: seq<int>)
    requires n <= |s| && ArePlacesOf(needle, s, at) && forall k :: 0 <= k < |at| ==> at[k] >= n
    ensures ArePlacesOf(needle, s[n..], Shifted(at, 0 - n))
  {
    hide IsAt;
    var back := Shifted(at, 0 - n);
    forall k | 0 <= k < |at| ensures IsAt(needle, s[n..], back[k]) {
      IsAtShifts(needle, s, n, at[k] - n);
    }
  }

  /** As many places as are counted can be found. */
  lemma {:induction false} CountIsAttained(s: string, needle: string) returns (at: seq<int>)
    requires needle != ""
    ensures ArePlacesOf(needle, s, at) && |at| == Count(s, needle)
    decreases |s|
  {
    if |s| < |needle| {
      at := [];
    } else if StartsWith(s, needle) {
      var rest := CountIsAttained(s[|needle|..], needle);
      PlacesMoveOn(needle, s, |needle|, rest);
      at := [0] + Shifted(rest, |needle|);
    } else {
      var rest := CountIsAttained(s[1..], needle);
      PlacesMoveOn(needle, s, 1, rest);
      at := Shifted(rest, 1);
    }
  }

  /** The count is the largest number of places of the needle that do not overlap. */
  lemma {:induction false} CountIsLargest(s: string, needle: string, at: seq<int>)
    requires needle != "" && ArePlacesOf(needle, s, at)
    ensures |at| <= Count(s, needle)
    decreases |s|
  {
    hide IsAt, ArePlacesOf;
    if at != [] {
      PlacesFit(needle, s, at);
      if StartsWith(s, needle) {
        PlacesAfterFirst(needle, s, at);
        PlacesMoveBack(needle, s, |needle|, at[1..]);
        CountIsLargest(s[|needle|..], needle, Shifted(at[1..], 0 - |needle|));
      } else {
        NoneAtTheStart(needle, s, at);
        PlacesMoveBack(needle, s, 1, at);
        CountIsLargest(s[1..], needle, Shifted(at, 0 - 1));
      }
    }
  }

  lemma PlacesFit(needle: string, s: string, at: seq<int>)
    requires at != [] && ArePlacesOf(needle, s, at)
    ensures |needle| <= |s|
  {
    assert IsAt(needle, s, at[0]);
  }

  lemma PlacesAfterFirst(needle: string, s: string, at: seq<int>)
    requires at != [] && ArePlacesOf(needle, s, at)
    ensures ArePlacesOf(needle, s, at[1..]) && forall k :: 0 <= k < |at[1..]| ==> at[1..][k] >= |needle|
  {
    assert IsAt(needle, s, at[0]);
    assert forall k :: 0 <= k < |at[1..]| ==> at[1..][k] == at[k + 1];
  }

  lemma NoneAtTheStart(needle: string, s: string, at: seq<int>)
    requires ArePlacesOf(needle, s, at) && !StartsWith(s, needle)
    ensures forall k :: 0 <= k < |at| ==> at[k] >= 1
  {
    forall k | 0 <= k < |at| ensures at[k] >= 1 {
      assert IsAt(needle, s, at[k]);
      assert s[0..|needle|] == s[..|needle|];
    }
  }

  predicate OneLine(needle: string) { needle != "" && '\n' !in needle }

  /** A one-line needle never matches across a newline, so the counts on both sides add up. */
  lemma {:induction false} CountSplitsAtNewline(a: string, b: string, needle: string)
    requires OneLine(needle)
    ensures Count(a + NEWLINE + b, needle) == Count(a, needle) + Count(b, needle)
    decreases |a|
  {
    var s := a + NEWLINE + b;
    assert s[|a|] == '\n';
    if |a| < |needle| {
      assert needle[|a|] in needle && needle[|a|] != s[|a|];
      assert !StartsWith(s, needle);
      if a == "" {
        assert s[1..] == b;
        if |s| < |needle| { assert |b| < |needle|; }
      } else {
        assert s[1..] == a[1..] + NEWLINE + b;
        CountSplitsAtNewline(a[1..], b, needle);
        if |s| < |needle| { assert |b| < |needle|; }
      }
    } else if StartsWith(a, needle) {
      assert s[..|needle|] == a[..|needle|];
      assert s[|needle|..] == a[|needle|..] + NEWLINE + b;
      CountSplitsAtNewline(a[|needle|..], b, needle);
    } else {
      assert s[..|needle|] == a[..|needle|];
      assert s[1..] == a[1..] + NEWLINE + b;
      CountSplitsAtNewline(a[1..], b, needle);
    }
  }

  /** `sum(line.count(needle) for line in lines)`. */
  function CountLines(lines: seq<string>, needle: string): nat
    requires needle != ""
  {
    if lines == [] then 0 else Count(lines[0], needle) + CountLines(lines[1..], needle)
  }

  /** A file's text: its lines joined, with or without a final newline. */
  function FileText(lines: seq<string>, finalNewline: bool): string {
    Join(lines) + if finalNewline then NEWLINE else ""
  }

  lemma {:induction false} CountOfJoin(lines: seq<string>, needle: string)
    requires OneLine(needle)
    ensures Count(Join(lines), needle) == CountLines(lines, needle)
  {
    if |lines| == 1 {
      assert lines[1..] == [];
    } else if |lines| > 1 {
      CountOfJoin(lines[1..], needle);
      CountSplitsAtNewline(lines[0], Join(lines[1..]), needle);
    }
  }

  /** Counting in a whole file is counting line by line. */
  lemma CountOfFile(lines: seq<string>, finalNewline: bool, needle: string)
    requires OneLine(needle)
    ensures Count(FileText(lines, finalNewline), needle) == CountLines(lines, needle)
  {
    CountOfJoin(lines, needle);
    if finalNewline {
      CountSplitsAtNewline(Join(lines), "", needle);
      assert Join(lines) + NEWLINE + "" == FileText(lines, true);
    } else {
      assert Join(lines) + "" == Join(lines);
    }
  }

  lemma {:induction false} CountLinesAppend(a: seq<string>, b: seq<string>, needle: string)
    requires needle != ""
    ensures CountLines(a + b, needle) == CountLines(a, needle) + CountLines(b, needle)
  {
    if a == [] {
      assert a + b == b;
    } else {
      CountLinesAppend(a[1..], b, needle);
      assert (a + b)[1..] == a[1..] + b;
    }
  }
}
