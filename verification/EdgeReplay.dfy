/** Loop-edge sets of replay runs (scripts/aggregate_backend_replay.py): reading them, their canonical
    text, and the comparison across runs. */
module EdgeReplay {
  import opened Sequences
  import opened Options
  import opened Ordering
  import opened Text

  datatype Edge = Edge(i: int, j: int)

  // ---------- str.split and int ----------

  predicate IsSpace(c: char) {
    c in {' ', '\t', '\n', '\r', '\U{000b}', '\U{000c}', '\U{001c}', '\U{001d}', '\U{001e}', '\U{001f}', '\U{0085}',
          '\U{00a0}', '\U{1680}', '\U{2028}', '\U{2029}', '\U{202f}', '\U{205f}', '\U{3000}'}
    || '\U{2000}' <= c <= '\U{200a}'
  }

  predicate Solid(s: string) { forall c :: c in s ==> !IsSpace(c) }

  function WordEnd(s: string): (n: nat)
    ensures n <= |s|
    ensures s != "" && !IsSpace(s[0]) ==> 0 < n
  {
    if s == "" || IsSpace(s[0]) then 0 else 1 + WordEnd(s[1..])
  }

  /** `line.split()`. */
  function Words(s: string): seq<string>
    decreases |s|
  {
    if s == "" then []
    else if IsSpace(s[0]) then Words(s[1..])
    else [s[..WordEnd(s)]] + Words(s[WordEnd(s)..])
  }

  predicate IsDigit(c: char) { '0' <= c <= '9' }
  function DigitValue(c: char): nat requires IsDigit(c) { c as int - '0' as int }
  function DigitChar(d: nat): char requires d < 10 { ('0' as int + d) as char }

  /** Decimal digits, single underscores allowed between them. */
  function ParseDigits(s: string): Option<nat>
    decreases |s|
  {
    if s == "" || !IsDigit(s[|s| - 1]) then None
    else
      var d := DigitValue(s[|s| - 1]);
      if |s| == 1 then Some(d)
      else
        match ParseDigits(if s[|s| - 2] == '_' then s[..|s| - 2] else s[..|s| - 1])
        case None => None
        case Some(n) => Some(10 * n + d)
  }

  /** `int(word)`, for ASCII digits. */
  function ParseInt(word: string): Option<int> {
    if word != "" && word[0] in {'+', '-'} then
      match ParseDigits(word[1..])
      case None => None
      case Some(n) =>
        var value: int := n;
        Some(if word[0] == '-' then -value else value)
    else
      match ParseDigits(word)
      case None => None
      case Some(n) => Some(n)
  }

  function PrintNat(n: nat): string {
    if n < 10 then [DigitChar(n)] else PrintNat(n / 10) + [DigitChar(n % 10)]
  }

  function PrintInt(i: int): string { if i < 0 then "-" + PrintNat(-i) else PrintNat(i) }

  lemma {:induction false} NatRoundTrip(n: nat)
    ensures ParseDigits(PrintNat(n)) == Some(n)
    ensures PrintNat(n) != "" && forall c :: c in PrintNat(n) ==> IsDigit(c)
  {
    if n >= 10 {
      NatRoundTrip(n / 10);
      var s := PrintNat(n);
      assert s[..|s| - 1] == PrintNat(n / 10);
      assert s[|s| - 2] == PrintNat(n / 10)[|s| - 2] && s[|s| - 2] in PrintNat(n / 10);
      assert n == 10 * (n / 10) + n % 10;
    }
  }

  /** Reading a printed integer gives it back, and the printed form is one word. */
  lemma IntRoundTrip(i: int)
    ensures ParseInt(PrintInt(i)) == Some(i)
    ensures PrintInt(i) != "" && Solid(PrintInt(i))
  {
    NatRoundTrip(if i < 0 then -i else i);
    var digits := PrintNat(if i < 0 then -i else i);
    assert digits[0] in digits;
    if i < 0 {
      assert PrintInt(i)[1..] == digits;
      forall c | c in PrintInt(i) ensures !IsSpace(c) {
        assert c == '-' || c in digits;
      }
    }
  }

  // ---------- read_edges ----------

  function Normal(i: int, j: int): Edge { if i <= j then Edge(i, j) else Edge(j, i) }

  predicate IsNormal(e: Edge) { e.i <= e.j }

  /** The edge a line holds, if any. */
  function EdgeOf(line: string): (r: Option<Edge>)
    ensures r.Some? ==> IsNormal(r.value)
  {
    var parts := Words(line);
    if |parts| < 2 then None
    else
      match (ParseInt(parts[0]), ParseInt(parts[1]))
      case (Some(i), Some(j)) => Some(Normal(i, j))
      case _ => None
  }

  ghost predicate Holds(lines: seq<string>, e: Edge) { exists l :: l in lines && EdgeOf(l) == Some(e) }

  /** The set of edges the lines hold. */
  method ReadEdges(lines: seq<string>) returns (edges: set<Edge>)
    ensures forall e :: e in edges <==> Holds(lines, e)
  {
    edges := {};
    for n := 0 to |lines|
      invariant forall e :: e in edges <==> Holds(lines[..n], e)
    {
      ghost var before := edges;
      assert lines[..n + 1] == lines[..n] + [lines[n]];
      var parts := Words(lines[n]);
      if |parts| >= 2 {
        match (ParseInt(parts[0]), ParseInt(parts[1]))
        case (Some(i), Some(j)) => edges := edges + {Edge(if i < j then i else j, if i > j then i else j)};
        case _ =>
      }
      forall e ensures e in edges <==> Holds(lines[..n + 1], e) {
        HoldsStep(lines[..n], lines[n], e);
      }
    }
    assert lines[..|lines|] == lines;
  }

  lemma HoldsStep(lines: seq<string>, line: string, e: Edge)
    ensures Holds(lines + [line], e) <==> Holds(lines, e) || EdgeOf(line) == Some(e)
  {
    assert forall l :: l in lines + [line] <==> l in lines || l == line;
    if EdgeOf(line) == Some(e) { assert line in lines + [line]; }
    if Holds(lines, e) {
      var l :| l in lines && EdgeOf(l) == Some(e);
      assert l in lines + [line];
    }
  }

  // ---------- the payload ----------

  predicate Le(a: Edge, b: Edge) { a.i < b.i || (a.i == b.i && a.j <= b.j) }

  lemma {:induction false} LeastExists(edges: set<Edge>)
    requires edges != {}
    ensures exists m :: m in edges && forall e :: e in edges ==> Le(m, e)
  {
    var x :| x in edges;
    if edges == {x} {
      assert forall e :: e in edges ==> Le(x, e);
    } else {
      LeastExists(edges - {x});
      var m :| m in edges - {x} && forall e :: e in edges - {x} ==> Le(m, e);
      var least := if Le(x, m) then x else m;
      assert forall e :: e in edges ==> e == x || e in edges - {x};
      assert forall e :: e in edges ==> Le(least, e);
    }
  }

  ghost function Least(edges: set<Edge>): (m: Edge)
    requires edges != {}
    ensures m in edges && forall e :: e in edges ==> Le(m, e)
  {
    LeastExists(edges);
    var m :| m in edges && forall e :: e in edges ==> Le(m, e);
    m
  }

  /** `sorted(edges)`; see `SortedIsTheSortOfAnyListing`. */
  ghost function Sorted(edges: set<Edge>): seq<Edge> {
    if edges == {} then [] else [Least(edges)] + Sorted(edges - {Least(edges)})
  }

  function PrintEdge(e: Edge): string { PrintInt(e.i) + " " + PrintInt(e.j) }

  ghost function PrintAll(es: seq<Edge>): seq<string> {
    seq(|es|, k requires 0 <= k < |es| => PrintEdge(es[k]))
  }

  /** The text whose hash names an edge set. */
  ghost function Payload(edges: set<Edge>): string { Join(PrintAll(Sorted(edges))) }

  lemma {:induction false} SortedHasTheElements(edges: set<Edge>)
    ensures forall e :: e in Sorted(edges) <==> e in edges
  {
    if edges != {} {
      SortedHasTheElements(edges - {Least(edges)});
      assert Sorted(edges) == [Least(edges)] + Sorted(edges - {Least(edges)});
    }
  }

  /** In strict order: in particular no edge occurs twice. */
  ghost predicate Rising(es: seq<Edge>) { forall a, b :: 0 <= a < b < |es| ==> Le(es[a], es[b]) && es[a] != es[b] }

  lemma {:induction false} SortedRises(edges: set<Edge>)
    ensures Rising(Sorted(edges))
  {
    if edges != {} {
      var m := Least(edges);
      var rest := Sorted(edges - {m});
      SortedRises(edges - {m});
      SortedHasTheElements(edges - {m});
      forall b | 0 <= b < |rest| ensures Le(m, rest[b]) && rest[b] != m {
        assert rest[b] in rest;
      }
    }
  }

  lemma EdgeOrder()
    ensures TotalPreorder(Le) && Antisymmetric(Le)
  {
  }

  /** Sorting any listing of the set, in whatever order a set is enumerated, gives this one list. */
  lemma SortedIsTheSortOfAnyListing(edges: set<Edge>, listing: seq<Edge>)
    requires NeverTwice(listing) && forall e :: e in listing <==> e in edges
    ensures Sort(Le, listing) == Sorted(edges)
  {
    EdgeOrder();
    SortSorts(Le, listing);
    SortedHasTheElements(edges);
    SortedRises(edges);
    SameSetSameElements(Sorted(edges), listing);
    SortedUnique(Le, Sort(Le, listing), Sorted(edges));
  }

  lemma {:induction false} WordEndOfWord(w: string, rest: string)
    requires Solid(w) && (rest != "" ==> IsSpace(rest[0]))
    ensures WordEnd(w + rest) == |w|
  {
    if w == "" {
      assert w + rest == rest;
    } else {
      assert (w + rest)[0] == w[0] && w[0] in w && (w + rest)[1..] == w[1..] + rest;
      WordEndOfWord(w[1..], rest);
    }
  }

  lemma TwoWords(a: string, b: string)
    requires a != "" && b != "" && Solid(a) && Solid(b)
    ensures Words(a + " " + b) == [a, b]
  {
    var s := a + " " + b;
    assert s == a + (" " + b);
    WordEndOfWord(a, " " + b);
    assert s[0] == a[0] && a[0] in a && s[..|a|] == a && s[|a|..] == " " + b;
    assert Words(s) == [a] + Words(" " + b);
    assert (" " + b)[1..] == b;
    assert Words(" " + b) == Words(b);
    assert b + "" == b;
    WordEndOfWord(b, "");
    assert b[0] in b && b[..|b|] == b && b[|b|..] == "";
    assert Words(b) == [b] + Words("");
  }

  predicate AllSpace(s: string) { forall c :: c in s ==> IsSpace(c) }

  lemma {:induction false} SkipSpace(space: string, rest: string)
    requires AllSpace(space)
    ensures Words(space + rest) == Words(rest)
  {
    if space == "" {
      assert space + rest == rest;
    } else {
      assert space[0] in space && (space + rest)[0] == space[0] && (space + rest)[1..] == space[1..] + rest;
      SkipSpace(space[1..], rest);
    }
  }

  lemma FirstWord(word: string, rest: string)
    requires word != "" && Solid(word) && (rest != "" ==> IsSpace(rest[0]))
    ensures Words(word + rest) == [word] + Words(rest)
  {
    var s := word + rest;
    WordEndOfWord(word, rest);
    assert s[0] == word[0] && word[0] in word && s[..|word|] == word && s[|word|..] == rest;
  }

  /** The edge of a line is read from its first two words, whatever space stands around them and whatever follows. */
  lemma EdgeOfFirstTwoWords(lead: string, a: string, gap: string, b: string, rest: string)
    requires AllSpace(lead) && AllSpace(gap) && gap != "" && (rest != "" ==> IsSpace(rest[0]))
    requires a != "" && b != "" && Solid(a) && Solid(b)
    ensures var edge := EdgeOf(lead + (a + (gap + (b + rest))));
      && (edge.Some? <==> ParseInt(a).Some? && ParseInt(b).Some?)
      && (edge.Some? ==>
            && (edge.value.i == ParseInt(a).value || edge.value.i == ParseInt(b).value)
            && edge.value.i <= edge.value.j && edge.value.i + edge.value.j == ParseInt(a).value + ParseInt(b).value)
  {
    SkipSpace(lead, a + (gap + (b + rest)));
    assert gap[0] in gap && (gap + (b + rest))[0] == gap[0];
    FirstWord(a, gap + (b + rest));
    SkipSpace(gap, b + rest);
    FirstWord(b, rest);
  }

  /** Fewer than two words hold no edge. */
  lemma OneWordHoldsNoEdge(lead: string, a: string, tail: string)
    requires AllSpace(lead) && AllSpace(tail) && Solid(a)
    ensures EdgeOf(lead + (a + tail)) == None
  {
    SkipSpace(lead, a + tail);
    SkipSpace(tail, "");
    assert tail + "" == tail;
    if a == "" {
      assert a + tail == tail;
    } else {
      assert tail != "" ==> tail[0] in tail;
      FirstWord(a, tail);
    }
  }

  predicate AllDigits(s: string) { s != "" && forall c :: c in s ==> IsDigit(c) }

  /** A sign in front gives the value or its negative, and a leading zero changes nothing. */
  lemma SignsAndZeros(digits: string)
    requires AllDigits(digits)
    ensures ParseInt(digits).Some? && ParseInt("+" + digits) == ParseInt("0" + digits) == ParseInt(digits)
    ensures ParseInt("-" + digits) == Some(-ParseInt(digits).value)
  {
    assert digits[0] in digits;
    DigitsParse(digits);
    LeadingZero(digits);
    SameDigits("0" + digits, digits);
    assert ("+" + digits)[1..] == digits && ("-" + digits)[1..] == digits;
  }

  lemma SameDigits(a: string, b: string)
    requires a != "" && b != "" && IsDigit(a[0]) && IsDigit(b[0]) && ParseDigits(a) == ParseDigits(b)
    ensures ParseInt(a) == ParseInt(b)
  {
  }

  /** A single underscore between digits changes nothing. */
  lemma UnderscoreIsSkipped(digits: string, more: string)
    requires AllDigits(digits) && AllDigits(more)
    ensures ParseInt(digits + "_" + more) == ParseInt(digits + more)
  {
    assert digits[0] in digits && (digits + "_" + more)[0] == digits[0] && (digits + more)[0] == digits[0];
    assert forall c :: c in digits + more ==> c in digits || c in more;
    UnderscoreBetween(digits, more);
    SameDigits(digits + "_" + more, digits + more);
  }

  lemma {:induction false} DigitsParse(digits: string)
    requires digits != "" && forall c :: c in digits ==> IsDigit(c)
    ensures ParseDigits(digits).Some?
  {
    if |digits| > 1 {
      assert digits[|digits| - 2] in digits;
      DigitsParse(digits[..|digits| - 1]);
    }
  }

  lemma {:induction false} LeadingZero(digits: string)
    requires digits != "" && forall c :: c in digits ==> IsDigit(c)
    ensures ParseDigits("0" + digits) == ParseDigits(digits)
  {
    var s, n := "0" + digits, |digits|;
    assert s[n] == digits[n - 1] && s[..n] == "0" + digits[..n - 1];
    assert digits[n - 1] in digits;
    if n == 1 {
      assert s[..1] == "0" && ParseDigits("0") == Some(0);
    } else {
      assert s[n - 1] == digits[n - 2] && digits[n - 2] in digits;
      LeadingZero(digits[..n - 1]);
    }
  }

  lemma {:induction false} UnderscoreBetween(digits: string, more: string)
    requires digits != "" && more != "" && forall c :: c in digits + more ==> IsDigit(c)
    ensures ParseDigits(digits + "_" + more) == ParseDigits(digits + more)
    decreases |more|
  {
    var s, plain, last := digits + "_" + more, digits + more, more[|more| - 1];
    assert last in plain && digits[|digits| - 1] in plain;
    assert s[|s| - 1] == last == plain[|plain| - 1];
    if |more| == 1 {
      assert s[|s| - 2] == '_' && s[..|s| - 2] == digits;
      assert plain[|plain| - 2] == digits[|digits| - 1] && plain[..|plain| - 1] == digits;
    } else {
      var init := more[..|more| - 1];
      assert s[|s| - 2] == more[|more| - 2] == plain[|plain| - 2] && more[|more| - 2] in plain;
      assert s[..|s| - 1] == digits + "_" + init && plain[..|plain| - 1] == digits + init;
      assert forall c :: c in digits + init ==> c in plain;
      UnderscoreBetween(digits, init);
    }
  }

  /** A printed normal edge is one unbroken line, read back as that edge. */
  lemma EdgeRoundTrip(e: Edge)
    requires IsNormal(e)
    ensures EdgeOf(PrintEdge(e)) == Some(e)
    ensures Unbroken(PrintEdge(e)) && PrintEdge(e) != ""
  {
    IntRoundTrip(e.i);
    IntRoundTrip(e.j);
    TwoWords(PrintInt(e.i), PrintInt(e.j));
    forall c | c in PrintEdge(e) ensures !IsBreak(c) {
      assert c in PrintInt(e.i) || c == ' ' || c in PrintInt(e.j);
    }
  }

  ghost predicate AllNormal(edges: set<Edge>) { forall e :: e in edges ==> IsNormal(e) }

  /** Reading the payload of a set of normalised edges gives the set back. */
  lemma PayloadRoundTrip(edges: set<Edge>, e: Edge)
    requires AllNormal(edges)
    ensures Holds(SplitLines(Payload(edges)), e) <==> e in edges
  {
    var es := Sorted(edges);
    var lines := PrintAll(es);
    SortedHasTheElements(edges);
    assert forall k :: 0 <= k < |es| ==> es[k] in es;
    forall k | 0 <= k < |es| ensures Unbroken(lines[k]) && lines[k] != "" && EdgeOf(lines[k]) == Some(es[k]) {
      EdgeRoundTrip(es[k]);
    }
    SplitJoin(lines);
    if e in edges {
      var k :| 0 <= k < |es| && es[k] == e;
      assert lines[k] in lines;
    }
  }

  /** Two sets of normalised edges have the same payload exactly when they are the same set. */
  lemma PayloadIsCanonical(a: set<Edge>, b: set<Edge>)
    requires AllNormal(a) && AllNormal(b)
    ensures Payload(a) == Payload(b) <==> a == b
  {
    if Payload(a) == Payload(b) {
      forall e ensures e in a <==> e in b {
        PayloadRoundTrip(a, e);
        PayloadRoundTrip(b, e);
      }
    }
  }

  /** Every edge a holds is held by some line of b, written whichever way. */
  ghost predicate Covers(b: seq<string>, a: seq<string>) {
    forall l :: l in a && EdgeOf(l).Some? ==> Holds(b, EdgeOf(l).value)
  }

  /** Reordering lines, repeating them, respacing them or swapping the endpoints of an edge leaves the
      set read and its payload alone; nothing else does. */
  lemma ReadingIgnoresPresentation(a: seq<string>, b: seq<string>, s: set<Edge>, t: set<Edge>)
    requires forall e :: e in s <==> Holds(a, e)
    requires forall e :: e in t <==> Holds(b, e)
    ensures Covers(a, b) && Covers(b, a) <==> s == t
    ensures Covers(a, b) && Covers(b, a) <==> Payload(s) == Payload(t)
  {
    CoversMeansSubset(a, b, s, t);
    CoversMeansSubset(b, a, t, s);
    assert AllNormal(s) && AllNormal(t);
    PayloadIsCanonical(s, t);
  }

  lemma CoversMeansSubset(a: seq<string>, b: seq<string>, s: set<Edge>, t: set<Edge>)
    requires forall e :: e in s <==> Holds(a, e)
    requires forall e :: e in t <==> Holds(b, e)
    ensures Covers(a, b) <==> t <= s
  {
    if Covers(a, b) {
      forall e | e in t ensures e in s {
        var m :| m in b && EdgeOf(m) == Some(e);
      }
    }
    if t <= s {
      forall l | l in b && EdgeOf(l).Some? ensures Holds(a, EdgeOf(l).value) {
        assert Holds(b, EdgeOf(l).value);
      }
    }
  }

  lemma SwappedEndpoints(i: int, j: int)
    ensures EdgeOf(PrintInt(i) + " " + PrintInt(j)) == EdgeOf(PrintInt(j) + " " + PrintInt(i)) == Some(Normal(i, j))
  {
    IntRoundTrip(i);
    IntRoundTrip(j);
    TwoWords(PrintInt(i), PrintInt(j));
    TwoWords(PrintInt(j), PrintInt(i));
  }

  // ---------- print_report ----------

  datatype Comparison = Comparison(identical: bool, differences: seq<set<Edge>>)

  /** The verdict, and the symmetric differences against the first run when it is negative. */
  method Compare(runs: seq<set<Edge>>) returns (c: Comparison)
    ensures c.identical <==> forall a, b :: 0 <= a < |runs| && 0 <= b < |runs| ==> runs[a] == runs[b]
    ensures c.identical ==> c.differences == []
    ensures !c.identical ==> |c.differences| == |runs| - 1
    ensures !c.identical ==> forall k, e :: 0 <= k < |c.differences| ==>
      (e in c.differences[k] <==> (e in runs[0]) != (e in runs[k + 1]))
    ensures !c.identical ==> exists k :: 0 <= k < |c.differences| && c.differences[k] != {}
  {
    if runs == [] { return Comparison(true, []); }
    var base := runs[0];
    if forall k :: 1 <= k < |runs| ==> runs[k] == base { return Comparison(true, []); }
    var odd :| 1 <= odd < |runs| && runs[odd] != base;
    var differences: seq<set<Edge>> := [];
    for k := 1 to |runs|
      invariant |differences| == k - 1
      invariant forall m :: 0 <= m < |differences| ==> differences[m] == (base - runs[m + 1]) + (runs[m + 1] - base)
    {
      differences := differences + [(base - runs[k]) + (runs[k] - base)];
    }
    NoDifference(base, runs[odd]);
    assert differences[odd - 1] != {};
    return Comparison(false, differences);
  }

  lemma NoDifference(a: set<Edge>, b: set<Edge>)
    ensures (a - b) + (b - a) == {} <==> a == b
  {
    if (a - b) + (b - a) == {} {
      assert forall e :: e in a ==> e in b by { assert forall e :: e in a - b ==> e in (a - b) + (b - a); }
      assert forall e :: e in b ==> e in a by { assert forall e :: e in b - a ==> e in (a - b) + (b - a); }
    }
  }

  /** The verdict can be read off the payloads: identical means one payload for all runs. */
  lemma IdenticalMeansOnePayload(runs: seq<set<Edge>>)
    requires forall k :: 0 <= k < |runs| ==> AllNormal(runs[k])
    ensures (forall a, b :: 0 <= a < |runs| && 0 <= b < |runs| ==> runs[a] == runs[b]) <==>
            (forall a, b :: 0 <= a < |runs| && 0 <= b < |runs| ==> Payload(runs[a]) == Payload(runs[b]))
  {
    forall a, b | 0 <= a < |runs| && 0 <= b < |runs| ensures runs[a] == runs[b] <==> Payload(runs[a]) == Payload(runs[b]) {
      PayloadIsCanonical(runs[a], runs[b]);
    }
  }
}
