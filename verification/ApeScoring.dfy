/** Scoring a trajectory against a reference (scripts/ape_from_tum.py): nearest-neighbour and
    interpolated association, first-pose alignment, error statistics. */
module ApeScoring {
  import opened Sequences
  import opened Options
  import opened Statistics
  import opened Reals
  import opened Ordering
  import opened StampSearch
  import opened RigidMotion

  datatype Sample = Sample(t: real, p: Vec)

  function StampsOf(s: seq<Sample>): seq<real> {
    seq(|s|, i requires 0 <= i < |s| => s[i].t)
  }

  ghost predicate ByTime(s: seq<Sample>) { forall i, j :: 0 <= i < j < |s| ==> s[i].t <= s[j].t }

  lemma TimesSorted(s: seq<Sample>)
    requires ByTime(s)
    ensures NonDecreasing(StampsOf(s))
  {
  }

  datatype Diagnostics = Diagnostics(total: nat, pairs: nat, rejected: nat, maxGap: Option<real>)

  /** The largest of the gaps, if there are any. */
  ghost predicate IsLargest(m: Option<real>, gaps: seq<real>) {
    match m
    case None => gaps == []
    case Some(g) => g in gaps && forall x :: x in gaps ==> x <= g
  }

  method Largest(gaps: seq<real>) returns (m: Option<real>)
    ensures IsLargest(m, gaps)
  {
    if gaps == [] { return None; }
    var g := gaps[0];
    for i := 1 to |gaps|
      invariant g in gaps && forall k :: 0 <= k < i ==> gaps[k] <= g
    {
      if g < gaps[i] { g := gaps[i]; }
    }
    return Some(g);
  }

  // ---------- nearest-neighbour association ----------

  datatype Match = Match(ref: nat, est: nat)

  /** The candidate kept for one reference stamp: the later neighbour unless the earlier one is strictly
      nearer, and only within the bound. */
  function Choice(times: seq<real>, r: real, maxDiff: real): Option<nat> {
    var idx := InsertionLeft(times, r);
    var late := idx < |times| && Abs(times[idx] - r) <= maxDiff;
    var early := 0 < idx && Abs(times[idx - 1] - r) <= maxDiff;
    if early && (!late || Abs(times[idx - 1] - r) < Abs(times[idx] - r)) then Some(idx - 1)
    else if late then Some(idx)
    else None
  }

  function Matches(ref: seq<Sample>, est: seq<Sample>, maxDiff: real): seq<Match> {
    if ref == [] then []
    else
      var last := |ref| - 1;
      Matches(ref[..last], est, maxDiff) +
      match Choice(StampsOf(est), ref[last].t, maxDiff)
      case None => []
      case Some(e) => [Match(last, e)]
  }

  /** The lists hold, match by match, the reference position, the estimate position and the time gap. */
  ghost predicate Lists(ref: seq<Sample>, est: seq<Sample>, ms: seq<Match>, ps: seq<Vec>, qs: seq<Vec>, gaps: seq<real>) {
    && |ps| == |qs| == |gaps| == |ms|
    && forall i :: 0 <= i < |ms| ==> Entry(ref, est, ms[i], ps[i], qs[i], gaps[i])
  }

  ghost predicate Entry(ref: seq<Sample>, est: seq<Sample>, m: Match, p: Vec, q: Vec, gap: real) {
    && m.ref < |ref| && m.est < |est|
    && p == ref[m.ref].p && q == est[m.est].p && gap == Abs(est[m.est].t - ref[m.ref].t)
  }

  lemma ListsPush(
      ref: seq<Sample>, est: seq<Sample>, ms: seq<Match>, ps: seq<Vec>, qs: seq<Vec>, gaps: seq<real>,
      m: Match, p: Vec, q: Vec, gap: real)
    requires Lists(ref, est, ms, ps, qs, gaps) && Entry(ref, est, m, p, q, gap)
    ensures Lists(ref, est, ms + [m], ps + [p], qs + [q], gaps + [gap])
  {
  }

  /** `associate`: one entry per match, in reference order, and the diagnostics of the run. */
  method Associate(ref: seq<Sample>, est: seq<Sample>, maxDiff: real)
      returns (refMatched: seq<Vec>, estMatched: seq<Vec>, d: Diagnostics, ghost gaps: seq<real>)
    ensures Lists(ref, est, Matches(ref, est, maxDiff), refMatched, estMatched, gaps)
    ensures d.pairs == |refMatched| && d.total == |ref| == d.pairs + d.rejected
    ensures IsLargest(d.maxGap, gaps)
  {
    hide InsertionLeft;
    refMatched, estMatched := [], [];
    var matchedGaps: seq<real> := [];
    var rejected := 0;
    var times := StampsOf(est);
    for n := 0 to |ref|
      invariant Lists(ref, est, Matches(ref[..n], est, maxDiff), refMatched, estMatched, matchedGaps)
      invariant n == |refMatched| + rejected
    {
      MatchesStep(ref, n, est, maxDiff);
      var best := BestCandidate(times, ref[n].t, maxDiff);
      match best
      case None => rejected := rejected + 1;
      case Some(e) =>
        ListsPush(ref, est, Matches(ref[..n], est, maxDiff), refMatched, estMatched, matchedGaps,
                  Match(n, e), ref[n].p, est[e].p, Abs(times[e] - ref[n].t));
        refMatched, estMatched := refMatched + [ref[n].p], estMatched + [est[e].p];
        matchedGaps := matchedGaps + [Abs(times[e] - ref[n].t)];
    }
    assert ref[..|ref|] == ref;
    gaps := matchedGaps;
    var maxGap := Largest(matchedGaps);
    d := Diagnostics(|ref|, |refMatched|, rejected, maxGap);
  }

  lemma MatchesStep(ref: seq<Sample>, n: nat, est: seq<Sample>, maxDiff: real)
    requires n < |ref|
    ensures Matches(ref[..n + 1], est, maxDiff) == Matches(ref[..n], est, maxDiff) +
      match Choice(StampsOf(est), ref[n].t, maxDiff)
      case None => []
      case Some(e) => [Match(n, e)]
  {
    assert ref[..n + 1][..n] == ref[..n];
  }

  /** The candidate loop: the later neighbour first, replaced only by a strictly nearer one. */
  method BestCandidate(times: seq<real>, r: real, maxDiff: real) returns (best: Option<nat>)
    ensures best == Choice(times, r, maxDiff)
    ensures best.Some? ==> best.value < |times|
  {
    var idx := InsertionLeft(times, r);
    var candidates: seq<nat> := [];
    if idx < |times| { candidates := candidates + [idx]; }
    if idx > 0 { candidates := candidates + [idx - 1]; }
    best := None;
    var bestDt := 0.0;
    for c := 0 to |candidates|
      invariant c == 0 ==> best == None
      invariant c == 1 && idx < |times| ==> best == if Abs(times[idx] - r) <= maxDiff then Some(idx) else None
      invariant c == 1 && idx == |times| ==> best == Choice(times, r, maxDiff)
      invariant c == 2 ==> best == Choice(times, r, maxDiff)
      invariant best.Some? ==> best.value < |times| && bestDt == Abs(times[best.value] - r)
    {
      var dt := Abs(times[candidates[c]] - r);
      if dt <= maxDiff && (best == None || dt < bestDt) {
        best, bestDt := Some(candidates[c]), dt;
      }
    }
  }

  /** The choice is a globally nearest stamp, and there is none exactly when no stamp lies in the bound. */
  lemma ChoiceIsNearest(times: seq<real>, r: real, maxDiff: real)
    requires NonDecreasing(times)
    ensures Choice(times, r, maxDiff).None? <==> forall k :: 0 <= k < |times| ==> Abs(times[k] - r) > maxDiff
    ensures Choice(times, r, maxDiff).Some? ==>
      var e := Choice(times, r, maxDiff).value;
      && e < |times| && Abs(times[e] - r) <= maxDiff
      && forall k :: 0 <= k < |times| ==> Abs(times[e] - r) <= Abs(times[k] - r)
  {
    hide InsertionLeft;
    forall k | 0 <= k < |times|
      ensures Choice(times, r, maxDiff).None? ==> Abs(times[k] - r) > maxDiff
      ensures Choice(times, r, maxDiff).Some? ==> Abs(times[Choice(times, r, maxDiff).value] - r) <= Abs(times[k] - r)
    {
      NeighbourIsNearest(times, r, k);
    }
  }

  /** Of several nearest stamps the first one at or after the reference is chosen, and without such the last one
      before it. */
  lemma ChoiceBreaksTies(times: seq<real>, r: real, maxDiff: real, k: nat)
    requires NonDecreasing(times) && Choice(times, r, maxDiff).Some? && k < |times|
    requires forall j :: 0 <= j < |times| ==> Abs(times[k] - r) <= Abs(times[j] - r)
    ensures var e := Choice(times, r, maxDiff).value;
      && e < |times|
      && (times[k] >= r ==> times[e] >= r && e <= k)
      && (times[e] < r ==> k <= e)
  {
    ChoiceIsNearest(times, r, maxDiff);
    var idx, e := InsertionLeft(times, r), Choice(times, r, maxDiff).value;
    if times[k] >= r {
      assert idx <= k;
      assert idx < |times| && times[idx] <= times[k];
      assert 0 < idx ==> Abs(times[idx] - r) <= Abs(times[idx - 1] - r);
    }
  }

  lemma ChoiceIsMonotone(times: seq<real>, r: real, s: real, maxDiff: real)
    requires NonDecreasing(times) && r <= s
    requires Choice(times, r, maxDiff).Some? && Choice(times, s, maxDiff).Some?
    ensures Choice(times, r, maxDiff).value <= Choice(times, s, maxDiff).value
  {
    InsertionMonotone(times, r, s);
  }

  /** Estimate k is within the bound of reference r, and no farther from it than any other estimate. */
  ghost predicate IsNearest(ref: seq<Sample>, est: seq<Sample>, maxDiff: real, m: Match) {
    && m.ref < |ref| && m.est < |est|
    && Abs(est[m.est].t - ref[m.ref].t) <= maxDiff
    && forall k :: 0 <= k < |est| ==> Abs(est[m.est].t - ref[m.ref].t) <= Abs(est[k].t - ref[m.ref].t)
  }

  ghost predicate Reachable(ref: Sample, est: seq<Sample>, maxDiff: real) {
    exists k :: 0 <= k < |est| && Abs(est[k].t - ref.t) <= maxDiff
  }

  ghost predicate Matched(ms: seq<Match>, r: nat) { exists i :: 0 <= i < |ms| && ms[i].ref == r }

  lemma ChoiceIsNearestSample(ref: seq<Sample>, r: nat, est: seq<Sample>, maxDiff: real)
    requires ByTime(est) && r < |ref|
    ensures var c := Choice(StampsOf(est), ref[r].t, maxDiff);
      && (c.Some? <==> Reachable(ref[r], est, maxDiff))
      && (c.Some? ==> IsNearest(ref, est, maxDiff, Match(r, c.value)))
  {
    hide InsertionLeft;
    TimesSorted(est);
    ChoiceIsNearest(StampsOf(est), ref[r].t, maxDiff);
    assert forall k :: 0 <= k < |est| ==> StampsOf(est)[k] == est[k].t;
  }

  /** The matches: in order, each reference with a globally nearest estimate within the bound. */
  lemma MatchesAreNearest(ref: seq<Sample>, est: seq<Sample>, maxDiff: real)
    requires ByTime(est)
    ensures forall i, j :: 0 <= i < j < |Matches(ref, est, maxDiff)| ==>
      Matches(ref, est, maxDiff)[i].ref < Matches(ref, est, maxDiff)[j].ref
    ensures forall m :: m in Matches(ref, est, maxDiff) ==> IsNearest(ref, est, maxDiff, m)
  {
    MatchesFollowChoice(ref, est, maxDiff);
    forall m | m in Matches(ref, est, maxDiff) ensures IsNearest(ref, est, maxDiff, m) {
      ChoiceIsNearestSample(ref, m.ref, est, maxDiff);
    }
  }

  /** Among equally near estimates the first one at or after the reference is matched, and without such the last
      one before it. */
  lemma MatchesBreakTies(ref: seq<Sample>, est: seq<Sample>, maxDiff: real, m: Match, k: nat)
    requires ByTime(est) && m in Matches(ref, est, maxDiff) && IsNearest(ref, est, maxDiff, Match(m.ref, k))
    ensures m.est < |est|
    ensures est[k].t >= ref[m.ref].t ==> est[m.est].t >= ref[m.ref].t && m.est <= k
    ensures est[m.est].t < ref[m.ref].t ==> k <= m.est
  {
    hide Choice, Matches;
    TimesSorted(est);
    MatchesFollowChoice(ref, est, maxDiff);
    assert forall j :: 0 <= j < |est| ==> StampsOf(est)[j] == est[j].t;
    ChoiceBreaksTies(StampsOf(est), ref[m.ref].t, maxDiff, k);
  }

  /** A reference is rejected exactly when no estimate lies within the bound. */
  lemma RejectedMeansUnreachable(ref: seq<Sample>, est: seq<Sample>, maxDiff: real, r: nat)
    requires ByTime(est) && r < |ref|
    ensures Matched(Matches(ref, est, maxDiff), r) <==> Reachable(ref[r], est, maxDiff)
  {
    MatchedMeansChosen(ref, est, maxDiff, r);
    ChoiceIsNearestSample(ref, r, est, maxDiff);
  }

  /** Along sorted references the chosen estimates never go back. */
  lemma MatchesNeverGoBack(ref: seq<Sample>, est: seq<Sample>, maxDiff: real, i: nat, j: nat)
    requires ByTime(ref) && ByTime(est) && i < j < |Matches(ref, est, maxDiff)|
    ensures Matches(ref, est, maxDiff)[i].est <= Matches(ref, est, maxDiff)[j].est
  {
    MatchesFollowChoice(ref, est, maxDiff);
    TimesSorted(est);
    var ms := Matches(ref, est, maxDiff);
    ChoiceIsMonotone(StampsOf(est), ref[ms[i].ref].t, ref[ms[j].ref].t, maxDiff);
  }

  lemma {:induction false} MatchesFollowChoice(ref: seq<Sample>, est: seq<Sample>, maxDiff: real)
    ensures forall i, j :: 0 <= i < j < |Matches(ref, est, maxDiff)| ==>
      Matches(ref, est, maxDiff)[i].ref < Matches(ref, est, maxDiff)[j].ref
    ensures forall m :: m in Matches(ref, est, maxDiff) ==>
      m.ref < |ref| && Choice(StampsOf(est), ref[m.ref].t, maxDiff) == Some(m.est)
  {
    hide Choice;
    if ref != [] {
      var last := |ref| - 1;
      MatchesFollowChoice(ref[..last], est, maxDiff);
      var before := Matches(ref[..last], est, maxDiff);
      assert forall i :: 0 <= i < |before| ==> before[i] in before;
    }
  }

  lemma {:induction false} MatchedMeansChosen(ref: seq<Sample>, est: seq<Sample>, maxDiff: real, r: nat)
    requires r < |ref|
    ensures Matched(Matches(ref, est, maxDiff), r) <==> Choice(StampsOf(est), ref[r].t, maxDiff).Some?
  {
    hide Choice;
    var last := |ref| - 1;
    var before, ms := Matches(ref[..last], est, maxDiff), Matches(ref, est, maxDiff);
    assert forall i :: 0 <= i < |before| ==> ms[i] == before[i];
    if r == last {
      MatchesFollowChoice(ref[..last], est, maxDiff);
      assert forall i :: 0 <= i < |before| ==> before[i] in before;
      if |ms| > |before| { assert ms[|before|].ref == r; }
    } else {
      MatchedMeansChosen(ref[..last], est, maxDiff, r);
      if Matched(before, r) {
        var i :| 0 <= i < |before| && before[i].ref == r;
        assert ms[i].ref == r;
      }
    }
  }

  // ---------- interpolated association ----------

  function Lerp(a: real, b: real, w: real): real { a + w * (b - a) }

  datatype Sampled = Rejected | Inside(p: Vec, span: real) | Clamped(p: Vec, span: real)

  /** The estimated trajectory at one reference time. */
  function SampleAt(est: seq<Sample>, r: real, maxEdge: real): Sampled
    requires est != []
  {
    var idx := InsertionLeft(StampsOf(est), r);
    if idx == 0 then
      var gap := est[0].t - r;
      if gap > maxEdge then Rejected else Clamped(est[0].p, gap)
    else if idx == |est| then
      var gap := r - est[|est| - 1].t;
      if gap > maxEdge then Rejected else Clamped(est[|est| - 1].p, gap)
    else
      Inside(Blend(est[idx - 1], est[idx], r), est[idx].t - est[idx - 1].t)
  }

  /** What the interpolation keeps, reference by reference. */
  function Samples(ref: seq<Sample>, est: seq<Sample>, maxEdge: real): seq<(Vec, Vec, real)>
    requires ref != [] ==> est != []
  {
    if ref == [] then []
    else
      var last := ref[|ref| - 1];
      Samples(ref[..|ref| - 1], est, maxEdge) +
      match SampleAt(est, last.t, maxEdge)
      case Rejected => []
      case Inside(p, span) => [(last.p, p, span)]
      case Clamped(p, span) => [(last.p, p, span)]
  }

  /** `interpolate_association`. The caller has returned before if either list is empty; with no estimate
      there is no sample to clamp to. */
  method InterpolateAssociation(ref: seq<Sample>, est: seq<Sample>, maxEdge: real)
      returns (refMatched: seq<Vec>, estMatched: seq<Vec>, d: Diagnostics, ghost spans: seq<real>)
    requires ref != [] ==> est != []
    ensures |refMatched| == |estMatched| == |spans| == |Samples(ref, est, maxEdge)|
    ensures forall i :: 0 <= i < |spans| ==> Samples(ref, est, maxEdge)[i] == (refMatched[i], estMatched[i], spans[i])
    ensures d.pairs == |refMatched| && d.total == |ref| == d.pairs + d.rejected
    ensures IsLargest(d.maxGap, spans)
  {
    hide InsertionLeft, SampleAt;
    refMatched, estMatched := [], [];
    var matchedSpans: seq<real> := [];
    var rejected := 0;
    for n := 0 to |ref|
      invariant |refMatched| == |estMatched| == |matchedSpans| == |Samples(ref[..n], est, maxEdge)|
      invariant forall i :: 0 <= i < |matchedSpans| ==>
        Samples(ref[..n], est, maxEdge)[i] == (refMatched[i], estMatched[i], matchedSpans[i])
      invariant n == |refMatched| + rejected
    {
      SamplesStep(ref, n, est, maxEdge);
      var sample := TakeSample(est, ref[n].t, maxEdge);
      if sample.Rejected? { rejected := rejected + 1; continue; }
      refMatched, estMatched := refMatched + [ref[n].p], estMatched + [sample.p];
      matchedSpans := matchedSpans + [sample.span];
    }
    assert ref[..|ref|] == ref;
    spans := matchedSpans;
    var maxGap := Largest(matchedSpans);
    d := Diagnostics(|ref|, |refMatched|, rejected, maxGap);
  }

  /** The branches of one pass of the loop. */
  method TakeSample(est: seq<Sample>, r: real, maxEdge: real) returns (sample: Sampled)
    requires est != []
    ensures sample == SampleAt(est, r, maxEdge)
  {
    var idx := InsertionLeft(StampsOf(est), r);
    if idx == 0 {
      var gap := est[0].t - r;
      if gap > maxEdge { return Rejected; }
      return Clamped(est[0].p, gap);
    } else if idx == |est| {
      var gap := r - est[|est| - 1].t;
      if gap > maxEdge { return Rejected; }
      return Clamped(est[|est| - 1].p, gap);
    }
    var a, b := est[idx - 1], est[idx];
    return Inside(Blend(a, b, r), b.t - a.t);
  }

  lemma SamplesStep(ref: seq<Sample>, n: nat, est: seq<Sample>, maxEdge: real)
    requires n < |ref| && est != []
    ensures var s := SampleAt(est, ref[n].t, maxEdge);
      Samples(ref[..n + 1], est, maxEdge) ==
      Samples(ref[..n], est, maxEdge) + if s.Rejected? then [] else [(ref[n].p, s.p, s.span)]
  {
    assert ref[..n + 1][..n] == ref[..n];
  }

  predicate Between(x: real, a: real, b: real) { a <= x <= b || b <= x <= a }

  predicate IsBracketed(p: Vec, r: real, a: Sample, b: Sample) {
    && a.t < r <= b.t
    && Between(p.x, a.p.x, b.p.x) && Between(p.y, a.p.y, b.p.y) && Between(p.z, a.p.z, b.p.z)
  }

  lemma LerpStaysBetween(a: real, b: real, w: real)
    requires 0.0 <= w <= 1.0
    ensures Between(Lerp(a, b, w), a, b)
  {
    var d := if a <= b then b - a else a - b;
    PartOf(w, d);
    assert w * (b - a) == if a <= b then w * d else -(w * d);
  }

  lemma PartOf(w: real, d: real)
    requires 0.0 <= w <= 1.0 && d >= 0.0
    ensures 0.0 <= w * d <= d
  {
    var rest := 1.0 - w;
    assert rest * d >= 0.0 && w * d + rest * d == d;
  }

  /** An interior reference lies after one stamp and at or before the next, strictly later one, so the
      equal-times guard is never taken; the sample lies between the two neighbours in every coordinate.
      Outside, the clamp gap is never negative, and rejection means just that it exceeds the bound. */
  lemma SampleStaysInBracket(est: seq<Sample>, r: real, maxEdge: real)
    requires est != [] && ByTime(est)
    ensures var s, idx := SampleAt(est, r, maxEdge), InsertionLeft(StampsOf(est), r);
      && (s.Inside? <==> est[0].t < r <= est[|est| - 1].t)
      && (s.Inside? ==> 0 < idx < |est| && s.span > 0.0 && IsBracketed(s.p, r, est[idx - 1], est[idx]))
      && (s.Clamped? ==> 0.0 <= s.span <= maxEdge)
      && (s.Rejected? <==>
            (r <= est[0].t && est[0].t - r > maxEdge) || (est[|est| - 1].t < r && r - est[|est| - 1].t > maxEdge))
  {
    TimesSorted(est);
    var times := StampsOf(est);
    var idx := InsertionLeft(times, r);
    assert forall k :: 0 <= k < |est| ==> times[k] == est[k].t;
    assert times[0] == est[0].t && times[|est| - 1] == est[|est| - 1].t;
    if 0 < idx < |est| {
      var a, b := est[idx - 1], est[idx];
      assert times[idx - 1] == a.t && times[idx] == b.t;
      var w := (r - a.t) / (b.t - a.t);
      Weight(a.t, b.t, r);
      LerpStaysBetween(a.p.x, b.p.x, w);
      LerpStaysBetween(a.p.y, b.p.y, w);
      LerpStaysBetween(a.p.z, b.p.z, w);
    }
  }

  lemma Weight(t0: real, t1: real, r: real)
    requires t0 < r <= t1
    ensures 0.0 < (r - t0) / (t1 - t0) <= 1.0
    ensures ((r - t0) / (t1 - t0)) * (t1 - t0) == r - t0
    ensures r == t1 ==> (r - t0) / (t1 - t0) == 1.0
  {
    var d, w := t1 - t0, (r - t0) / (t1 - t0);
    assert w * d == r - t0;
    assert w > 1.0 ==> w * d > d;
    assert w <= 0.0 ==> w * d <= 0.0;
    assert r == t1 ==> (w - 1.0) * d == 0.0;
  }

  /** The position divides the segment between two samples as the time does. */
  predicate Proportional(a: Sample, b: Sample, r: real, p: Vec) {
    && Times(b.t - a.t, p.x - a.p.x) == Times(r - a.t, b.p.x - a.p.x)
    && Times(b.t - a.t, p.y - a.p.y) == Times(r - a.t, b.p.y - a.p.y)
    && Times(b.t - a.t, p.z - a.p.z) == Times(r - a.t, b.p.z - a.p.z)
  }

  predicate IsBetween(est: seq<Sample>, k: int, r: real) { 0 < k < |est| && est[k - 1].t < r <= est[k].t }

  /** The sample at a time, told from the estimates. Behind the first stamp and up to the last one it divides the
      segment between its two neighbours as the time does, and its span is their distance in time. At or before
      the first stamp it is the first position, after the last stamp the last one, refused beyond the bound, and
      its span is the distance in time to that estimate. */
  ghost predicate IsSampled(est: seq<Sample>, r: real, maxEdge: real, s: Sampled)
    requires est != []
  {
    var end := if r <= est[0].t then est[0] else est[|est| - 1];
    if est[0].t < r <= est[|est| - 1].t then
      && s.Inside?
      && exists k :: IsBetween(est, k, r)
           && Proportional(est[k - 1], est[k], r, s.p) && s.span == est[k].t - est[k - 1].t
    else if Abs(end.t - r) > maxEdge then s.Rejected?
    else s == Clamped(end.p, Abs(end.t - r))
  }

  lemma SampleIsDetermined(est: seq<Sample>, r: real, maxEdge: real)
    requires est != [] && ByTime(est)
    ensures IsSampled(est, r, maxEdge, SampleAt(est, r, maxEdge))
  {
    hide Blend, Proportional, InsertionLeft;
    IndexTells(est, r);
    var idx := InsertionLeft(StampsOf(est), r);
    if 0 < idx < |est| {
      BlendIsProportional(est[idx - 1], est[idx], r);
    }
  }

  lemma IndexTells(est: seq<Sample>, r: real)
    requires est != [] && ByTime(est)
    ensures var idx := InsertionLeft(StampsOf(est), r);
      && idx <= |est|
      && (idx == 0 <==> r <= est[0].t) && (idx == |est| <==> est[|est| - 1].t < r)
      && (0 < idx < |est| ==> IsBetween(est, idx, r))
  {
    hide InsertionLeft;
    TimesSorted(est);
    var times := StampsOf(est);
    var idx := InsertionLeft(times, r);
    assert times[0] == est[0].t && times[|est| - 1] == est[|est| - 1].t;
    if 0 < idx < |est| {
      assert times[idx - 1] == est[idx - 1].t && times[idx] == est[idx].t;
    }
  }

  lemma BlendIsProportional(a: Sample, b: Sample, r: real)
    requires a.t < r <= b.t
    ensures Proportional(a, b, r, Blend(a, b, r))
  {
    var w := (r - a.t) / (b.t - a.t);
    Weight(a.t, b.t, r);
    LerpIsProportional(a.p.x, b.p.x, w, b.t - a.t, r - a.t);
    LerpIsProportional(a.p.y, b.p.y, w, b.t - a.t, r - a.t);
    LerpIsProportional(a.p.z, b.p.z, w, b.t - a.t, r - a.t);
  }

  lemma LerpIsProportional(a: real, b: real, w: real, whole: real, part: real)
    requires w * whole == part
    ensures Times(whole, Lerp(a, b, w) - a) == Times(part, b - a)
  {
    assert whole * (w * (b - a)) == (w * whole) * (b - a);
  }

  /** What is taken beyond the ends is an estimate at least as near in time as any other. */
  lemma ClampedIsNearest(est: seq<Sample>, r: real, maxEdge: real, k: nat)
    requires est != [] && ByTime(est) && SampleAt(est, r, maxEdge).Clamped? && k < |est|
    ensures SampleAt(est, r, maxEdge).span <= Abs(est[k].t - r)
  {
    SampleIsDetermined(est, r, maxEdge);
    assert k == 0 || est[0].t <= est[k].t;
    assert k == |est| - 1 || est[k].t <= est[|est| - 1].t;
  }

  /** The references that have a sample. */
  ghost function SampledPlaces(ref: seq<Sample>, est: seq<Sample>, maxEdge: real): set<nat>
    requires est != []
  {
    set n: nat | n < |ref| && IsReached(est, ref[n].t, maxEdge)
  }

  predicate IsReached(est: seq<Sample>, r: real, maxEdge: real)
    requires est != []
  {
    && (r <= est[0].t ==> est[0].t - r <= maxEdge)
    && (est[|est| - 1].t < r ==> r - est[|est| - 1].t <= maxEdge)
  }

  lemma NoReferences(est: seq<Sample>, maxEdge: real)
    requires est != []
    ensures SampledPlaces([], est, maxEdge) == {}
  {
  }

  lemma LastReference(ref: seq<Sample>, est: seq<Sample>, maxEdge: real)
    requires est != [] && ByTime(est) && ref != []
    ensures var n := |ref| - 1;
      SampledPlaces(ref, est, maxEdge) == SampledPlaces(ref[..n], est, maxEdge) +
        if SampleAt(est, ref[n].t, maxEdge).Rejected? then {} else {n}
  {
    SampleIsDetermined(est, ref[|ref| - 1].t, maxEdge);
    assert |est| == 1 || est[0].t <= est[|est| - 1].t;
  }

  /** The lists of the interpolated association: the references within the bound of the span, in order, each with
      the sample at its time. */
  lemma {:induction false} SamplesFollowReferences(ref: seq<Sample>, est: seq<Sample>, maxEdge: real)
      returns (places: seq<nat>)
    requires est != [] && ByTime(est)
    ensures ArePlaces(places, SampledPlaces(ref, est, maxEdge)) && |places| == |Samples(ref, est, maxEdge)|
    ensures forall i :: 0 <= i < |places| ==>
      && places[i] < |ref|
      && var s := SampleAt(est, ref[places[i]].t, maxEdge);
         && !s.Rejected? && IsSampled(est, ref[places[i]].t, maxEdge, s)
         && Samples(ref, est, maxEdge)[i] == (ref[places[i]].p, s.p, s.span)
  {
    hide SampleAt, SampledPlaces, IsSampled;
    places := [];
    if ref == [] {
      NoReferences(est, maxEdge);
    } else {
      var n := |ref| - 1;
      places := SamplesFollowReferences(ref[..n], est, maxEdge);
      LastReference(ref, est, maxEdge);
      SampleIsDetermined(est, ref[n].t, maxEdge);
      assert ref[..n + 1] == ref;
      SamplesStep(ref, n, est, maxEdge);
      if !SampleAt(est, ref[n].t, maxEdge).Rejected? {
        PlacesGrow(places, SampledPlaces(ref[..n], est, maxEdge), n);
        places := places + [n];
      }
    }
  }

  function Along(base: real, velocity: real, t: real): real { base + t * velocity }

  /** A position that moves at constant velocity. */
  function Affine(base: Vec, velocity: Vec, t: real): Vec {
    Vec(Along(base.x, velocity.x, t), Along(base.y, velocity.y, t), Along(base.z, velocity.z, t))
  }

  /** A trajectory affine in time is reproduced exactly anywhere in its span. */
  lemma AffineIsReproduced(est: seq<Sample>, base: Vec, velocity: Vec, r: real, maxEdge: real)
    requires est != [] && ByTime(est) && maxEdge >= 0.0
    requires forall i :: 0 <= i < |est| ==> est[i].p == Affine(base, velocity, est[i].t)
    requires est[0].t <= r <= est[|est| - 1].t
    ensures !SampleAt(est, r, maxEdge).Rejected? && SampleAt(est, r, maxEdge).p == Affine(base, velocity, r)
  {
    SampleStaysInBracket(est, r, maxEdge);
    if est[0].t < r {
      var idx := InsertionLeft(StampsOf(est), r);
      BlendOfAffine(est[idx - 1], est[idx], base, velocity, r);
    }
  }

  /** The blend of two bracketing samples. */
  function Blend(a: Sample, b: Sample, r: real): Vec {
    var w := if b.t == a.t then 0.0 else (r - a.t) / (b.t - a.t);
    Vec(Lerp(a.p.x, b.p.x, w), Lerp(a.p.y, b.p.y, w), Lerp(a.p.z, b.p.z, w))
  }

  lemma BlendOfAffine(a: Sample, b: Sample, base: Vec, velocity: Vec, r: real)
    requires a.t < r <= b.t && a.p == Affine(base, velocity, a.t) && b.p == Affine(base, velocity, b.t)
    ensures Blend(a, b, r) == Affine(base, velocity, r)
  {
    Weight(a.t, b.t, r);
    var w := (r - a.t) / (b.t - a.t);
    LerpAffine(base.x, velocity.x, a.t, b.t, w, r);
    LerpAffine(base.y, velocity.y, a.t, b.t, w, r);
    LerpAffine(base.z, velocity.z, a.t, b.t, w, r);
  }

  lemma LerpAffine(base: real, v: real, t0: real, t1: real, w: real, r: real)
    requires w * (t1 - t0) == r - t0
    ensures Lerp(Along(base, v, t0), Along(base, v, t1), w) == Along(base, v, r)
  {
    assert w * ((base + t1 * v) - (base + t0 * v)) == (w * (t1 - t0)) * v;
  }

  /** At a stamp of the estimate both associations return the same recorded position. */
  lemma ExactStampsAgree(est: seq<Sample>, k: nat, maxDiff: real, maxEdge: real)
    requires ByTime(est) && k < |est| && maxDiff >= 0.0 && maxEdge >= 0.0
    ensures var r := est[k].t;
      var c, s := Choice(StampsOf(est), r, maxDiff), SampleAt(est, r, maxEdge);
      && c.Some? && c.value < |est| && !s.Rejected?
      && est[c.value].t == r && s.p == est[c.value].p
  {
    var r, times := est[k].t, StampsOf(est);
    TimesSorted(est);
    assert times[k] == r;
    SampleStaysInBracket(est, r, maxEdge);
    var idx := InsertionLeft(times, r);
    assert times[idx] == r && est[idx].t == r;
    if 0 < idx {
      assert times[idx - 1] == est[idx - 1].t < r;
      Weight(est[idx - 1].t, r, r);
      var a, b := est[idx - 1].p, est[idx].p;
      assert Lerp(a.x, b.x, 1.0) == b.x && Lerp(a.y, b.y, 1.0) == b.y && Lerp(a.z, b.z, 1.0) == b.z;
    }
  }

  // ---------- alignment and errors ----------

  /** `align_first_pose`: the whole estimate shifted so that the first positions meet. */
  function AlignFirstPose(ref: seq<Vec>, est: seq<Vec>): (out: seq<Vec>)
    requires ref != [] && est != []
    ensures |out| == |est|
  {
    var shift := Sub(ref[0], est[0]);
    seq(|est|, i requires 0 <= i < |est| => Add(est[i], shift))
  }

  /** Alignment keeps every pairwise difference, starts with no error, and is idempotent. */
  lemma AlignmentKeepsShape(ref: seq<Vec>, est: seq<Vec>)
    requires ref != [] && est != []
    ensures var out := AlignFirstPose(ref, est);
      && (forall i, j :: 0 <= i < |est| && 0 <= j < |est| ==> Sub(out[i], out[j]) == Sub(est[i], est[j]))
      && out[0] == ref[0]
      && AlignFirstPose(ref, out) == out
  {
  }

  method CalcErrors(sqrt: real -> real, ref: seq<Vec>, est: seq<Vec>) returns (out: seq<real>)
    ensures |out| == if |ref| < |est| then |ref| else |est|
    ensures forall i :: 0 <= i < |out| ==> out[i] == sqrt(NormSq(Sub(ref[i], est[i])))
  {
    out := [];
    var n := if |ref| < |est| then |ref| else |est|;
    for i := 0 to n
      invariant |out| == i
      invariant forall k :: 0 <= k < i ==> out[k] == sqrt(NormSq(Sub(ref[k], est[k])))
    {
      out := out + [sqrt(NormSq(Sub(ref[i], est[i])))];
    }
  }

  // ---------- report statistics ----------

  function SquaredGap(x: real, centre: real): real { (x - centre) * (x - centre) }

  function SumOfSquared(xs: seq<real>, centre: real): real {
    if xs == [] then 0.0 else SquaredGap(xs[0], centre) + SumOfSquared(xs[1..], centre)
  }

  /** The square of the reported rmse. */
  function MeanSquare(xs: seq<real>): real
    requires xs != []
  {
    SumOfSquared(xs, 0.0) / |xs| as real
  }

  /** The square of the reported standard deviation (population form; 0 for a single error). */
  function Variance(xs: seq<real>): real
    requires xs != []
  {
    if |xs| > 1 then SumOfSquared(xs, Mean(xs)) / |xs| as real else 0.0
  }

  predicate AtMost(a: real, b: real) { a <= b }

  /** `statistics.median`: the middle of the sorted list, or the mean of the two middles. */
  function Median(xs: seq<real>): real
    requires xs != []
  {
    SortSorts(AtMost, xs);
    Middle(Sort(AtMost, xs))
  }

  lemma {:induction false} Recentre(xs: seq<real>, m: real)
    ensures SumOfSquared(xs, m) == SumOfSquared(xs, 0.0) - 2.0 * Times(m, Sum(xs)) + Times(|xs| as real, Times(m, m))
  {
    if xs != [] {
      Recentre(xs[1..], m);
      RecentreOne(xs[0], m, Sum(xs[1..]), |xs| - 1);
    }
  }

  lemma RecentreOne(x: real, m: real, rest: real, n: nat)
    ensures SquaredGap(x, m) - 2.0 * Times(m, rest) + Times(n as real, Times(m, m)) ==
            SquaredGap(x, 0.0) - 2.0 * Times(m, x + rest) + Times((n + 1) as real, Times(m, m))
  {
    var k := n as real;
    assert (n + 1) as real == k + 1.0;
    assert (k + 1.0) * (m * m) == k * (m * m) + m * m;
    assert Times(k + 1.0, Times(m, m)) == Times(k, Times(m, m)) + Times(m, m);
  }

  /** rmse^2 = mean^2 + std^2, for every non-empty list of errors. */
  lemma RmseSplits(xs: seq<real>)
    requires xs != []
    ensures MeanSquare(xs) == Times(Mean(xs), Mean(xs)) + Variance(xs)
  {
    Recentre(xs, Mean(xs));
    SplitScalars(SumOfSquared(xs, 0.0), SumOfSquared(xs, Mean(xs)), Sum(xs), Mean(xs), |xs| as real);
    if |xs| == 1 {
      OneError(xs);
    }
  }

  lemma OneError(xs: seq<real>)
    requires |xs| == 1
    ensures SumOfSquared(xs, Mean(xs)) == 0.0
  {
    assert xs[1..] == [] && Sum(xs) == xs[0];
    var one := |xs| as real;
    assert one == 1.0 && xs[0] / one == xs[0];
  }

  lemma SplitScalars(squares: real, centred: real, sum: real, m: real, n: real)
    requires n > 0.0 && m == sum / n && centred == squares - 2.0 * Times(m, sum) + Times(n, Times(m, m))
    ensures squares / n == Times(m, m) + centred / n
  {
    assert sum == m * n;
    assert squares == centred + n * (m * m);
    assert squares / n == centred / n + (n * (m * m)) / n;
    assert (n * (m * m)) / n == m * m;
  }

  lemma {:induction false} SumBetween(xs: seq<real>, lo: real, hi: real)
    requires forall x :: x in xs ==> lo <= x <= hi
    ensures Times(|xs| as real, lo) <= Sum(xs) <= Times(|xs| as real, hi)
  {
    if xs != [] {
      assert xs[0] in xs && forall x :: x in xs[1..] ==> x in xs;
      SumBetween(xs[1..], lo, hi);
      OneMore((|xs| - 1) as real, lo);
      OneMore((|xs| - 1) as real, hi);
    }
  }

  lemma OneMore(k: real, x: real)
    ensures Times(k + 1.0, x) == Times(k, x) + x
  {
  }

  lemma {:induction false} SquaresBelow(xs: seq<real>, hi: real)
    requires forall x :: x in xs ==> 0.0 <= x <= hi
    ensures SumOfSquared(xs, 0.0) <= Times(|xs| as real, Times(hi, hi))
  {
    if xs != [] {
      assert xs[0] in xs && forall x :: x in xs[1..] ==> x in xs;
      SquaresBelow(xs[1..], hi);
      SquareBelow(xs[0], hi);
      OneMore((|xs| - 1) as real, Times(hi, hi));
    }
  }

  lemma SquareBelow(x: real, hi: real)
    requires 0.0 <= x <= hi
    ensures SquaredGap(x, 0.0) <= Times(hi, hi)
  {
    assert x * x <= hi * hi;
  }

  lemma SquareNotNegative(x: real, centre: real)
    ensures SquaredGap(x, centre) >= 0.0
  {
  }

  lemma {:induction false} SquaresNotNegative(xs: seq<real>, centre: real)
    ensures SumOfSquared(xs, centre) >= 0.0
  {
    if xs != [] {
      SquaresNotNegative(xs[1..], centre);
      SquareNotNegative(xs[0], centre);
    }
  }

  lemma DivideBounds(total: real, n: real, lo: real, hi: real)
    requires n > 0.0 && Times(n, lo) <= total <= Times(n, hi)
    ensures lo <= total / n <= hi
  {
    var q := total / n;
    assert n * q == total;
    ScaleKeepsOrder(n, q, lo);
    ScaleKeepsOrder(n, hi, q);
  }

  lemma ScaleKeepsOrder(n: real, a: real, b: real)
    requires n > 0.0
    ensures a < b ==> n * a < n * b
  {
  }

  lemma RootOrder(a: real, b: real)
    requires 0.0 <= a && 0.0 <= b && Times(a, a) <= Times(b, b)
    ensures a <= b
  {
    var gap, sum := a - b, a + b;
    assert gap * sum == a * a - b * b;
    assert gap > 0.0 && sum > 0.0 ==> gap * sum > 0.0;
  }

  lemma MeanBetweenExtremes(xs: seq<real>)
    requires xs != []
    ensures Min(xs) <= Mean(xs) <= Max(xs)
  {
    ExtremesBound(xs);
    SumBetween(xs, Min(xs), Max(xs));
    DivideBounds(Sum(xs), |xs| as real, Min(xs), Max(xs));
  }

  lemma VarianceNotNegative(xs: seq<real>)
    requires xs != []
    ensures Variance(xs) >= 0.0
  {
    SquaresNotNegative(xs, Mean(xs));
    var total, n := SumOfSquared(xs, Mean(xs)), |xs| as real;
    assert total >= 0.0 ==> total / n >= 0.0;
  }

  lemma MeanSquareBelowMax(xs: seq<real>)
    requires xs != [] && (forall x :: x in xs ==> x >= 0.0)
    ensures Max(xs) >= 0.0 && MeanSquare(xs) <= Times(Max(xs), Max(xs))
  {
    ExtremesBound(xs);
    SquaresBelow(xs, Max(xs));
    SquaresNotNegative(xs, 0.0);
    DivideBounds(SumOfSquared(xs, 0.0), |xs| as real, 0.0, Times(Max(xs), Max(xs)));
  }

  /** For errors, which are never negative: min <= mean <= rmse <= max, rmse being the root of the mean square. */
  lemma StatisticsInOrder(xs: seq<real>, rmse: real)
    requires xs != [] && (forall x :: x in xs ==> x >= 0.0)
    requires rmse >= 0.0 && Times(rmse, rmse) == MeanSquare(xs)
    ensures 0.0 <= Min(xs) <= Mean(xs) <= rmse <= Max(xs)
  {
    ExtremesBound(xs);
    MeanBetweenExtremes(xs);
    RmseSplits(xs);
    VarianceNotNegative(xs);
    RootOrder(Mean(xs), rmse);
    MeanSquareBelowMax(xs);
    RootOrder(rmse, Max(xs));
  }

  /** The median is midway between the two middle errors of the sorted list, which are one for an odd length. */
  lemma MedianIsMidway(xs: seq<real>)
    requires xs != []
    ensures var s := Sort(AtMost, xs);
      |s| == |xs| && SortedBy(AtMost, s) && 2.0 * Median(xs) == s[(|xs| - 1) / 2] + s[|xs| / 2]
  {
    hide Sort, Middle;
    SortSorts(AtMost, xs);
    MiddleSplits(Sort(AtMost, xs));
  }

  /** The median lies between the extremes, with at least half of the sorted errors on either side. */
  lemma MedianSplits(xs: seq<real>)
    requires xs != []
    ensures Min(xs) <= Median(xs) <= Max(xs)
    ensures var s := Sort(AtMost, xs);
      && |s| == |xs| && multiset(s) == multiset(xs)
      && (forall i :: 0 <= i < (|xs| + 1) / 2 ==> s[i] <= Median(xs))
      && (forall i :: |xs| / 2 <= i < |xs| ==> Median(xs) <= s[i])
  {
    var s := Sort(AtMost, xs);
    SortSorts(AtMost, xs);
    SameElements(s, xs);
    ExtremesBound(xs);
    MiddleSplits(s);
    assert s[|s| / 2] in s && s[(|s| - 1) / 2] in s;
  }

  function Middle(s: seq<real>): real
    requires s != []
  {
    if |s| % 2 == 1 then s[|s| / 2] else (s[|s| / 2 - 1] + s[|s| / 2]) / 2.0
  }

  lemma MiddleSplits(s: seq<real>)
    requires s != [] && SortedBy(AtMost, s)
    ensures s[(|s| - 1) / 2] <= Middle(s) <= s[|s| / 2]
    ensures forall i :: 0 <= i < (|s| + 1) / 2 ==> s[i] <= Middle(s)
    ensures forall i :: |s| / 2 <= i < |s| ==> Middle(s) <= s[i]
    ensures 2.0 * Middle(s) == s[(|s| - 1) / 2] + s[|s| / 2]
  {
    assert forall i, j :: 0 <= i < j < |s| ==> AtMost(s[i], s[j]);
    var lo, hi := (|s| - 1) / 2, |s| / 2;
    assert lo == hi || AtMost(s[lo], s[hi]);
  }
}
