/** Loading TUM stamps and pairing estimates with sparse reference checkpoints
    (scripts/analyze_sparse_checkpoint_errors.py). */
module SparseAssociation {
  import opened Sequences
  import opened Reals
  import opened Ordering
  import opened StampSearch

  // ---------- load_tum ----------

  datatype Row = Row(stamp: real, x: real, y: real, z: real)

  /** A line after `split`: skipped, or its fields, each one a number or not. */
  datatype Line = Skipped | Fields(fields: seq<Field>)
  datatype Field = Number(value: real) | NotANumber

  datatype Loaded = Ok(rows: seq<Row>) | WrongFieldCount(line: nat) | BadNumber(line: nat) | NoPoses | NotUnique

  predicate StampLe(a: Row, b: Row) { a.stamp <= b.stamp }

  function Stamps(rows: seq<Row>): seq<real> {
    seq(|rows|, i requires 0 <= i < |rows| => rows[i].stamp)
  }

  predicate GoodLine(line: Line) {
    line.Fields? ==> |line.fields| == 8 && forall k :: 0 <= k < 4 ==> line.fields[k].Number?
  }

  predicate AllGood(lines: seq<Line>) { forall i :: 0 <= i < |lines| ==> GoodLine(lines[i]) }

  function ToRow(line: Line): Row
    requires line.Fields? && GoodLine(line)
  {
    Row(line.fields[0].value, line.fields[1].value, line.fields[2].value, line.fields[3].value)
  }

  /** The rows a file of well-formed lines holds, in file order. */
  function RowsOf(lines: seq<Line>): seq<Row>
    requires AllGood(lines)
  {
    if lines == [] then []
    else
      var last := lines[|lines| - 1];
      RowsOf(lines[..|lines| - 1]) + if last.Fields? then [ToRow(last)] else []
  }

  lemma RowsStep(lines: seq<Line>, n: nat)
    requires n < |lines| && AllGood(lines[..n]) && GoodLine(lines[n])
    ensures AllGood(lines[..n + 1])
    ensures RowsOf(lines[..n + 1]) == if lines[n].Fields? then RowsOf(lines[..n]) + [ToRow(lines[n])] else RowsOf(lines[..n])
  {
    var longer := lines[..n + 1];
    assert longer[..n] == lines[..n] && longer[n] == lines[n];
    assert forall i :: 0 <= i < n ==> longer[i] == lines[..n][i];
    assert RowsOf(lines[..n]) + [] == RowsOf(lines[..n]);
  }

  /** The lines that are not skipped. */
  ghost function FieldPlaces(lines: seq<Line>): set<nat> { set n: nat | n < |lines| && lines[n].Fields? }

  lemma NoFields()
    ensures FieldPlaces([]) == {}
  {
  }

  lemma LastFields(lines: seq<Line>)
    requires lines != []
    ensures var n := |lines| - 1;
      FieldPlaces(lines) == FieldPlaces(lines[..n]) + if lines[n].Fields? then {n} else {}
  {
  }

  /** A row holds the first four numbers of its line: the stamp and the position. */
  predicate IsRowOf(row: Row, line: Line) {
    && line.Fields? && |line.fields| == 8
    && line.fields[..4] == [Number(row.stamp), Number(row.x), Number(row.y), Number(row.z)]
  }

  /** The rows are those of the lines that are not skipped, in file order. */
  lemma {:induction false} RowsFollowLines(lines: seq<Line>) returns (places: seq<nat>)
    requires AllGood(lines)
    ensures ArePlaces(places, FieldPlaces(lines)) && |places| == |RowsOf(lines)|
    ensures forall i :: 0 <= i < |places| ==> places[i] < |lines| && IsRowOf(RowsOf(lines)[i], lines[places[i]])
  {
    hide FieldPlaces, IsRowOf, ToRow;
    places := [];
    if lines == [] {
      NoFields();
    } else {
      var n := |lines| - 1;
      places := RowsFollowLines(lines[..n]);
      LastFields(lines);
      if lines[n].Fields? {
        assert GoodLine(lines[n]);
        ToRowIs(lines[n]);
        PlacesGrow(places, FieldPlaces(lines[..n]), n);
        places := places + [n];
      }
    }
  }

  lemma ToRowIs(line: Line)
    requires line.Fields? && GoodLine(line)
    ensures IsRowOf(ToRow(line), line)
  {
  }

  lemma StampOrder()
    ensures TotalPreorder(StampLe)
  {
  }

  /** A file loads exactly when every line is well formed, there is at least one row and no stamp
      repeats; what is loaded are the file's rows, by strictly increasing stamp. */
  method LoadTum(lines: seq<Line>) returns (r: Loaded)
    ensures r.Ok? <==>
      && AllGood(lines)
      && RowsOf(lines) != []
      && (forall i, j :: 0 <= i < j < |RowsOf(lines)| ==> RowsOf(lines)[i].stamp != RowsOf(lines)[j].stamp)
    ensures r.Ok? ==> multiset(r.rows) == multiset(RowsOf(lines)) && StrictlyIncreasing(Stamps(r.rows))
    ensures r.WrongFieldCount? ==> 1 <= r.line <= |lines| && lines[r.line - 1].Fields? && |lines[r.line - 1].fields| != 8
    ensures r.BadNumber? ==>
      && 1 <= r.line <= |lines| && lines[r.line - 1].Fields? && |lines[r.line - 1].fields| == 8
      && !GoodLine(lines[r.line - 1])
    ensures r.WrongFieldCount? || r.BadNumber? ==> AllGood(lines[..r.line - 1])
  {
    var rows: seq<Row> := [];
    var n := 0;
    while n < |lines|
      invariant n <= |lines|
      invariant AllGood(lines[..n])
      invariant rows == RowsOf(lines[..n])
    {
      var line := lines[n];
      if line.Fields? {
        if |line.fields| != 8 { return WrongFieldCount(n + 1); }
        if k :| 0 <= k < 4 && line.fields[k].NotANumber? { return BadNumber(n + 1); }
        rows := rows + [ToRow(line)];
      }
      RowsStep(lines, n);
      n := n + 1;
    }
    assert lines[..n] == lines;
    r := SortRows(rows);
  }

  /** The end of `load_tum`: order the rows by stamp and refuse a repeated one. */
  method SortRows(rows: seq<Row>) returns (r: Loaded)
    ensures r.Ok? || r == NoPoses || r == NotUnique
    ensures r.Ok? <==> rows != [] && forall i, j :: 0 <= i < j < |rows| ==> rows[i].stamp != rows[j].stamp
    ensures r.Ok? ==> multiset(r.rows) == multiset(rows) && StrictlyIncreasing(Stamps(r.rows))
  {
    if rows == [] { return NoPoses; }
    var data := Sort(StampLe, rows);
    StampOrder();
    SortSorts(StampLe, rows);
    SortedGapsMeanDistinct(rows, data);
    if forall k :: 0 < k < |data| ==> data[k - 1].stamp < data[k].stamp {
      return Ok(data);
    }
    return NotUnique;
  }

  /** Positive gaps between sorted neighbours say the same as pairwise distinct stamps in file order. */
  lemma SortedGapsMeanDistinct(rows: seq<Row>, data: seq<Row>)
    requires SortedBy(StampLe, data) && multiset(rows) == multiset(data)
    ensures (forall k :: 0 < k < |data| ==> data[k - 1].stamp < data[k].stamp) <==>
            (forall i, j :: 0 <= i < j < |rows| ==> rows[i].stamp != rows[j].stamp)
    ensures (forall k :: 0 < k < |data| ==> data[k - 1].stamp < data[k].stamp) ==> StrictlyIncreasing(Stamps(data))
  {
    if k :| 0 < k < |data| && data[k - 1].stamp == data[k].stamp {
      var i, j := PairSurvives(data, rows, k - 1, k);
      assert rows[if i < j then i else j].stamp == rows[if i < j then j else i].stamp;
    }
    if i, j :| 0 <= i < j < |rows| && rows[i].stamp == rows[j].stamp {
      var k, l := PairSurvives(rows, data, i, j);
      var first, second := if k < l then k else l, if k < l then l else k;
      assert StampLe(data[first], data[first + 1]);
      assert first + 1 == second || StampLe(data[first + 1], data[second]);
      assert !(data[first].stamp < data[first + 1].stamp);
    }
    if forall k :: 0 < k < |data| ==> data[k - 1].stamp < data[k].stamp {
      forall i, j | 0 <= i < j < |data| ensures data[i].stamp < data[j].stamp {
        assert data[j - 1].stamp < data[j].stamp;
        assert i == j - 1 || StampLe(data[i], data[j - 1]);
      }
    }
  }

  // ---------- associate ----------

  /** The tuple (difference, estimate_index, reference_index). */
  datatype Candidate = Candidate(diff: real, est: int, ref: int)

  /** Tuple order of `sorted(candidates)`. */
  predicate Le(a: Candidate, b: Candidate) {
    a.diff < b.diff || (a.diff == b.diff && (a.est < b.est || (a.est == b.est && a.ref <= b.ref)))
  }

  predicate Before(a: Candidate, b: Candidate) { Le(a, b) && a != b }

  /** Tuple order of `matches.sort()`, where the reference index comes first. */
  predicate ByReference(a: Candidate, b: Candidate) {
    a.ref < b.ref || (a.ref == b.ref && (a.est < b.est || (a.est == b.est && a.diff <= b.diff)))
  }

  predicate Clash(a: Candidate, b: Candidate) { a.est == b.est || a.ref == b.ref }

  ghost function Elements(s: seq<Candidate>): set<Candidate> { set c | c in s }

  ghost predicate OneToOne(a: set<Candidate>) {
    forall x, y :: x in a && y in a && x != y ==> !Clash(x, y)
  }

  ghost predicate Blocked(c: Candidate, a: set<Candidate>) {
    exists x :: x in a && Before(x, c) && Clash(x, c)
  }

  /** `a` is one-to-one on both sides and leaves out only candidates an earlier accepted one rules out. */
  ghost predicate IsGreedyChoice(cs: set<Candidate>, a: set<Candidate>) {
    && a <= cs
    && OneToOne(a)
    && forall c :: c in cs && c !in a ==> Blocked(c, a)
  }

  /** A pair of neighbouring stamps within the tolerance. */
  ghost predicate IsCandidate(reference: seq<real>, estimate: seq<real>, maxDifference: real, c: Candidate) {
    && 0 <= c.est < |estimate|
    && Beside(reference, estimate[c.est], c.ref)
    && c.diff == Abs(reference[c.ref] - estimate[c.est])
    && c.diff <= maxDifference
  }

  ghost predicate AreTheCandidates(reference: seq<real>, estimate: seq<real>, maxDifference: real, cs: set<Candidate>) {
    forall c :: c in cs <==> IsCandidate(reference, estimate, maxDifference, c)
  }

  lemma CandidateOrders()
    ensures TotalPreorder(Le) && TotalPreorder(ByReference)
  {
  }

  /** Candidates before c, the measure on which two greedy choices are compared. */
  ghost function Earlier(cs: set<Candidate>, c: Candidate): set<Candidate> {
    set x | x in cs && Before(x, c)
  }

  lemma {:induction false} GreedyChoicesAgreeOn(cs: set<Candidate>, a: set<Candidate>, b: set<Candidate>, c: Candidate)
    requires IsGreedyChoice(cs, a) && IsGreedyChoice(cs, b) && c in cs
    ensures c in a <==> c in b
    decreases |Earlier(cs, c)|
  {
    if (c in a) != (c in b) {
      var other := if c in a then b else a;
      var x :| x in other && Before(x, c) && Clash(x, c);
      assert x in Earlier(cs, c) && x !in Earlier(cs, x);
      assert Earlier(cs, x) < Earlier(cs, c);
      SmallerSet(Earlier(cs, x), Earlier(cs, c));
      GreedyChoicesAgreeOn(cs, a, b, x);
      assert false;
    }
  }

  lemma SmallerSet<T>(a: set<T>, b: set<T>)
    requires a < b
    ensures |a| < |b|
  {
    var x :| x in b && x !in a;
    assert a <= b - {x};
    SubsetSize(a, b - {x});
  }

  lemma {:induction false} SubsetSize<T>(a: set<T>, b: set<T>)
    requires a <= b
    ensures |a| <= |b|
  {
    if a != {} {
      var x :| x in a;
      SubsetSize(a - {x}, b - {x});
    }
  }

  /** At most one subset of the candidates is a greedy choice. */
  lemma GreedyChoiceIsUnique(cs: set<Candidate>, a: set<Candidate>, b: set<Candidate>)
    requires IsGreedyChoice(cs, a) && IsGreedyChoice(cs, b)
    ensures a == b
  {
    forall c | c in cs ensures c in a <==> c in b {
      GreedyChoicesAgreeOn(cs, a, b, c);
    }
  }

  /** A greedy choice is maximal: no candidate left out can be added without a clash. */
  lemma GreedyChoiceIsMaximal(cs: set<Candidate>, a: set<Candidate>, c: Candidate)
    requires IsGreedyChoice(cs, a) && c in cs && c !in a
    ensures !OneToOne(a + {c})
  {
    var x :| x in a && Before(x, c) && Clash(x, c);
    assert x in a + {c} && c in a + {c};
  }

  /** What rules a candidate out: an accepted pair with its estimate or its reference that is nearer in time; among
      equally near ones the earlier estimate goes first, and then the earlier reference. */
  lemma RejectedByANearerPair(cs: set<Candidate>, a: set<Candidate>, c: Candidate)
    requires IsGreedyChoice(cs, a) && c in cs && c !in a
    ensures exists x :: x in a && (x.est == c.est || x.ref == c.ref) && x.diff <= c.diff && (x.diff == c.diff ==> IsEarlier(x, c))
  {
    var x :| x in a && Before(x, c) && Clash(x, c);
    assert IsEarlier(x, c) || x.diff < c.diff;
  }

  predicate IsEarlier(x: Candidate, c: Candidate) { if x.est == c.est then x.ref < c.ref else x.est < c.est }

  /** Accepted pairs keep the time order: a later estimate is never paired with an earlier reference. */
  lemma GreedyChoiceNeverCrosses(
      reference: seq<real>, estimate: seq<real>, maxDifference: real, cs: set<Candidate>, a: set<Candidate>,
      p: Candidate, q: Candidate)
    requires StrictlyIncreasing(reference) && StrictlyIncreasing(estimate)
    requires AreTheCandidates(reference, estimate, maxDifference, cs) && IsGreedyChoice(cs, a)
    requires p in a && q in a && p.est < q.est
    ensures p.ref < q.ref
  {
    assert IsCandidate(reference, estimate, maxDifference, p) && IsCandidate(reference, estimate, maxDifference, q);
    assert !Clash(p, q);
    if q.ref < p.ref {
      var s, t := estimate[p.est], estimate[q.est];
      assert s < t;
      OneGap(reference, s, t, p.ref, q.ref);
      var near, far := Candidate(s - reference[q.ref], p.est, q.ref), Candidate(reference[p.ref] - t, q.est, p.ref);
      assert near.diff < q.diff && far.diff < p.diff;
      assert near in cs by { assert IsCandidate(reference, estimate, maxDifference, near); }
      assert far in cs by { assert IsCandidate(reference, estimate, maxDifference, far); }
      UncrossingIsBlocked(cs, a, p, q, near);
      UncrossingIsBlocked(cs, a, p, q, far);
      assert false;
    }
  }

  /** Crossed neighbours have both their stamps in one gap of the reference. */
  lemma OneGap(reference: seq<real>, s: real, t: real, after: int, before: int)
    requires StrictlyIncreasing(reference) && s < t
    requires Beside(reference, s, after) && Beside(reference, t, before) && before < after
    ensures Beside(reference, s, before) && Beside(reference, t, after)
    ensures reference[before] < s && t <= reference[after]
  {
    InsertionMonotone(reference, s, t);
    assert after == InsertionLeft(reference, s) == InsertionLeft(reference, t);
  }

  /** A candidate joining one side of each of two accepted pairs loses to one of the two. */
  lemma UncrossingIsBlocked(cs: set<Candidate>, a: set<Candidate>, p: Candidate, q: Candidate, c: Candidate)
    requires IsGreedyChoice(cs, a) && p in a && q in a && c in cs
    requires (c.est == p.est && c.ref == q.ref) || (c.est == q.est && c.ref == p.ref)
    requires !Clash(p, q)
    ensures p.diff <= c.diff || q.diff <= c.diff
  {
    assert Clash(c, p) && Clash(c, q) && c != p && c != q;
    assert c !in a;
    var x :| x in a && Before(x, c) && Clash(x, c);
    assert x == p || x == q by {
      assert x != p ==> !Clash(x, p);
      assert x != q ==> !Clash(x, q);
    }
  }

  ghost function PairSet(refs: seq<int>, ests: seq<int>, diffs: seq<real>): set<Candidate>
    requires |refs| == |ests| == |diffs|
  {
    set i | 0 <= i < |refs| :: Candidate(diffs[i], ests[i], refs[i])
  }

  ghost predicate Increasing(s: seq<int>) {
    forall i, j :: 0 <= i < j < |s| ==> s[i] < s[j]
  }

  /** The two-neighbour candidates, in the order the loops generate them. */
  method Candidates(reference: seq<real>, estimate: seq<real>, maxDifference: real) returns (candidates: seq<Candidate>)
    ensures AreTheCandidates(reference, estimate, maxDifference, Elements(candidates))
  {
    candidates := [];
    for e := 0 to |estimate|
      invariant forall c :: c in candidates <==> c.est < e && IsCandidate(reference, estimate, maxDifference, c)
    {
      var insertion: int := InsertionLeft(reference, estimate[e]);
      for r := insertion - 1 to insertion + 1
        invariant forall c :: c in candidates <==>
          IsCandidate(reference, estimate, maxDifference, c) && (c.est < e || (c.est == e && c.ref < r))
      {
        if 0 <= r < |reference| {
          var difference := Abs(reference[r] - estimate[e]);
          if difference <= maxDifference {
            candidates := candidates + [Candidate(difference, e, r)];
          }
        }
      }
    }
  }

  /** The greedy pass over the sorted candidates. */
  method TakeGreedily(sorted: seq<Candidate>) returns (matches: seq<Candidate>)
    requires SortedBy(Le, sorted)
    ensures IsGreedyChoice(Elements(sorted), Elements(matches))
    ensures forall i, j :: 0 <= i < j < |matches| ==> !Clash(matches[i], matches[j])
  {
    var usedEstimate: set<int>, usedReference: set<int> := {}, {};
    matches := [];
    for n := 0 to |sorted|
      invariant forall e :: e in usedEstimate <==> exists m :: m in matches && m.est == e
      invariant forall r :: r in usedReference <==> exists m :: m in matches && m.ref == r
      invariant forall m :: m in matches ==> m in sorted[..n]
      invariant forall i, j :: 0 <= i < j < |matches| ==> !Clash(matches[i], matches[j])
      invariant forall c :: c in sorted[..n] && c !in matches ==> Blocked(c, Elements(matches))
    {
      var c := sorted[n];
      assert sorted[..n + 1] == sorted[..n] + [c];
      ghost var before := Elements(matches);
      if c.est in usedEstimate || c.ref in usedReference {
        var x :| x in matches && Clash(x, c);
        assert x in sorted[..n] && Le(x, c);
        assert c !in matches ==> x in before && Before(x, c);
      } else {
        assert forall m :: m in matches + [c] <==> m in matches || m == c;
        usedEstimate, usedReference := usedEstimate + {c.est}, usedReference + {c.ref};
        matches := matches + [c];
        assert before <= Elements(matches);
      }
    }
    assert sorted[..|sorted|] == sorted;
  }

  lemma InReferenceOrder(taken: seq<Candidate>, matches: seq<Candidate>)
    requires multiset(taken) == multiset(matches) && SortedBy(ByReference, matches)
    requires forall i, j :: 0 <= i < j < |taken| ==> !Clash(taken[i], taken[j])
    ensures forall i, j :: 0 <= i < j < |matches| ==> matches[i].ref < matches[j].ref
  {
    forall i, j | 0 <= i < j < |matches| ensures matches[i].ref < matches[j].ref {
      var k, l := PairSurvives(matches, taken, i, j);
      assert !Clash(taken[if k < l then k else l], taken[if k < l then l else k]);
      assert ByReference(matches[i], matches[j]);
    }
  }

  lemma ListsHoldThePairs(matches: seq<Candidate>, refs: seq<int>, ests: seq<int>, diffs: seq<real>)
    requires |refs| == |ests| == |diffs| == |matches|
    requires forall i :: 0 <= i < |matches| ==> matches[i] == Candidate(diffs[i], ests[i], refs[i])
    ensures PairSet(refs, ests, diffs) == Elements(matches)
  {
    forall m | m in matches ensures m in PairSet(refs, ests, diffs) {
      var i :| 0 <= i < |matches| && matches[i] == m;
      assert m == Candidate(diffs[i], ests[i], refs[i]);
    }
  }

  lemma EstimatesIncrease(
      reference: seq<real>, estimate: seq<real>, maxDifference: real, cs: set<Candidate>, matches: seq<Candidate>)
    requires StrictlyIncreasing(reference) && StrictlyIncreasing(estimate)
    requires AreTheCandidates(reference, estimate, maxDifference, cs)
    requires IsGreedyChoice(cs, Elements(matches))
    requires forall i, j :: 0 <= i < j < |matches| ==> matches[i].ref < matches[j].ref
    ensures forall i, j :: 0 <= i < j < |matches| ==> matches[i].est < matches[j].est
  {
    forall i, j | 0 <= i < j < |matches| ensures matches[i].est < matches[j].est {
      NeverCrossesBackwards(reference, estimate, maxDifference, cs, Elements(matches), matches[i], matches[j]);
    }
  }

  lemma NeverCrossesBackwards(
      reference: seq<real>, estimate: seq<real>, maxDifference: real, cs: set<Candidate>, a: set<Candidate>,
      p: Candidate, q: Candidate)
    requires StrictlyIncreasing(reference) && StrictlyIncreasing(estimate)
    requires AreTheCandidates(reference, estimate, maxDifference, cs) && IsGreedyChoice(cs, a)
    requires p in a && q in a && p.ref < q.ref
    ensures p.est < q.est
  {
    assert !Clash(p, q);
    if q.est < p.est {
      GreedyChoiceNeverCrosses(reference, estimate, maxDifference, cs, a, q, p);
    }
  }

  /** Nearest unique association. The pairs returned are the greedy choice among the candidates,
      listed by reference index; the estimate indices then increase as well. */
  method Associate(reference: seq<real>, estimate: seq<real>, maxDifference: real)
      returns (refs: seq<int>, ests: seq<int>, diffs: seq<real>, ghost cs: set<Candidate>)
    requires StrictlyIncreasing(reference) && StrictlyIncreasing(estimate)
    ensures |refs| == |ests| == |diffs|
    ensures AreTheCandidates(reference, estimate, maxDifference, cs)
    ensures IsGreedyChoice(cs, PairSet(refs, ests, diffs))
    ensures Increasing(refs) && Increasing(ests)
  {
    var candidates := Candidates(reference, estimate, maxDifference);
    cs := Elements(candidates);
    CandidateOrders();
    SortSorts(Le, candidates);
    SameElements(candidates, Sort(Le, candidates));
    var taken := TakeGreedily(Sort(Le, candidates));
    assert Elements(Sort(Le, candidates)) == cs;
    SortSorts(ByReference, taken);
    SameElements(taken, Sort(ByReference, taken));
    var matches := Sort(ByReference, taken);
    assert Elements(matches) == Elements(taken);
    InReferenceOrder(taken, matches);
    refs := seq(|matches|, i requires 0 <= i < |matches| => matches[i].ref);
    ests := seq(|matches|, i requires 0 <= i < |matches| => matches[i].est);
    diffs := seq(|matches|, i requires 0 <= i < |matches| => matches[i].diff);
    ListsHoldThePairs(matches, refs, ests, diffs);
    EstimatesIncrease(reference, estimate, maxDifference, cs, matches);
  }

  ghost predicate RefsIncrease(s: seq<Candidate>) {
    forall i, j :: 0 <= i < j < |s| ==> s[i].ref < s[j].ref
  }

  ghost function Pairs(refs: seq<int>, ests: seq<int>, diffs: seq<real>): (ps: seq<Candidate>)
    requires |refs| == |ests| == |diffs|
    ensures |ps| == |refs|
    ensures Elements(ps) == PairSet(refs, ests, diffs)
  {
    var ps := seq(|refs|, i requires 0 <= i < |refs| => Candidate(diffs[i], ests[i], refs[i]));
    ListsHoldThePairs(ps, refs, ests, diffs);
    ps
  }

  lemma {:induction false} SameElementsSameList(a: seq<Candidate>, b: seq<Candidate>)
    requires RefsIncrease(a) && RefsIncrease(b) && forall x :: x in a <==> x in b
    ensures a == b
  {
    assert |b| > 0 ==> b[0] in b;
    if a == [] {
      assert b == [];
    } else {
      assert a[0] in b && b[0] in a;
      assert a[0] == b[0];
      assert a == [a[0]] + a[1..] && b == [b[0]] + b[1..];
      forall x ensures x in a[1..] <==> x in b[1..] {
        assert x in a <==> x == a[0] || x in a[1..];
        assert x in b <==> x == b[0] || x in b[1..];
        assert a[0] !in a[1..] && b[0] !in b[1..];
      }
      SameElementsSameList(a[1..], b[1..]);
    }
  }

  /** What `Associate` promises fixes its three lists: neither the order in which the candidates were
      generated nor repeated candidates can show in the result. */
  lemma AssociationIsDetermined(
      cs: set<Candidate>, refs: seq<int>, ests: seq<int>, diffs: seq<real>,
      refs': seq<int>, ests': seq<int>, diffs': seq<real>)
    requires |refs| == |ests| == |diffs| && |refs'| == |ests'| == |diffs'|
    requires IsGreedyChoice(cs, PairSet(refs, ests, diffs)) && Increasing(refs)
    requires IsGreedyChoice(cs, PairSet(refs', ests', diffs')) && Increasing(refs')
    ensures refs == refs' && ests == ests' && diffs == diffs'
  {
    GreedyChoiceIsUnique(cs, PairSet(refs, ests, diffs), PairSet(refs', ests', diffs'));
    var a, b := Pairs(refs, ests, diffs), Pairs(refs', ests', diffs');
    assert forall x :: x in a <==> x in Elements(a);
    assert forall x :: x in b <==> x in Elements(b);
    SameElementsSameList(a, b);
    assert forall i :: 0 <= i < |a| ==> a[i] == Candidate(diffs[i], ests[i], refs[i]);
    assert forall i :: 0 <= i < |b| ==> b[i] == Candidate(diffs'[i], ests'[i], refs'[i]);
  }
}
