/** The release-profile gate over benchmark records (scripts/benchmark_summary.py). */
module ReleaseProfiles {
  import opened Sequences
  import opened Options
  import opened Ordering
  import opened Text

  datatype Metric = AgainstGroundTruth | AgainstReference | UnknownMetric

  /** Selection rules; an empty string or None stands for an absent rule. */
  datatype Rules = Rules(
    bag: string, pointsTopic: string, referenceKind: string, referenceSource: string, minPairs: Option<real>,
    requireClean: bool)

  datatype Profile = Profile(
    name: string, metric: Metric, pass: real, target: Option<real>, reportOnly: bool, rules: Rules)

  datatype Record = Record(
    run: string, bag: string, pointsTopic: string, referenceKind: string, referenceSource: string,
    pairs: Option<real>, rmse: Option<real>, complete: bool, clean: bool, commit: string)

  // ---------- matching ----------

  /** A required commit binds every profile that is not report-only; "" means none is required. */
  predicate CommitBound(p: Profile, required: string) { required != "" && !p.reportOnly }

  predicate NeedsProvenance(p: Profile, required: string) { p.rules.requireClean || CommitBound(p, required) }

  predicate Selects(p: Profile, r: Record) {
    && (p.rules.bag == "" || Contains(r.bag, p.rules.bag))
    && (p.rules.pointsTopic == "" || p.rules.pointsTopic == r.pointsTopic)
    && (p.rules.referenceKind == "" || p.rules.referenceKind == r.referenceKind)
    && (p.rules.referenceSource == "" || Contains(r.referenceSource, p.rules.referenceSource))
    && (p.rules.minPairs == None || (r.pairs.Some? && r.pairs.value >= p.rules.minPairs.value))
  }

  /** `_profile_match`. */
  predicate ProfileMatch(p: Profile, r: Record, checkProvenance: bool, required: string) {
    && Selects(p, r)
    && (checkProvenance && NeedsProvenance(p, required) ==> r.complete && r.clean)
    && (checkProvenance && CommitBound(p, required) ==> r.commit == required)
  }

  /** `_profile_metric_value`. */
  function MetricValue(p: Profile, r: Record): Option<real> {
    match p.metric
    case AgainstGroundTruth => if r.referenceKind == "ground_truth" then r.rmse else None
    case AgainstReference => r.rmse
    case UnknownMetric => None
  }

  predicate IsCandidate(p: Profile, r: Record) { ProfileMatch(p, r, false, "") && MetricValue(p, r).Some? }

  predicate IsMatched(p: Profile, r: Record, required: string) {
    IsCandidate(p, r) && ProfileMatch(p, r, true, required)
  }

  // ---------- evaluation ----------

  datatype Status = PASS | FAIL | WARN | NO_DATA | TARGET_MET

  datatype Rejections = Rejections(incomplete: seq<string>, dirty: seq<string>, commitMismatch: seq<string>)

  datatype Outcome = Outcome(
    name: string, status: Status, reportOnly: bool, matchedRuns: nat, candidateRuns: nat,
    bestRun: Option<string>, bestValue: Option<real>, rejections: Rejections)

  function RunLabel(r: Record): string { if r.run == "" then "<unnamed>" else r.run }

  function CommitLabel(r: Record): string {
    var commit := if r.commit == "" then "unknown" else r.commit;
    RunLabel(r) + "@" + if |commit| < 12 then commit else commit[..12]
  }

  function Candidates(p: Profile, records: seq<Record>): seq<Record> {
    if records == [] then []
    else
      var last := records[|records| - 1];
      Candidates(p, records[..|records| - 1]) + if IsCandidate(p, last) then [last] else []
  }

  function Matched(p: Profile, candidates: seq<Record>, required: string): seq<Record> {
    if candidates == [] then []
    else
      var last := candidates[|candidates| - 1];
      Matched(p, candidates[..|candidates| - 1], required) + if ProfileMatch(p, last, true, required) then [last] else []
  }

  lemma {:induction false} CandidateMembers(p: Profile, records: seq<Record>)
    ensures forall r :: r in Candidates(p, records) <==> r in records && IsCandidate(p, r)
  {
    if records != [] {
      CandidateMembers(p, records[..|records| - 1]);
      assert records == records[..|records| - 1] + [records[|records| - 1]];
    }
  }

  lemma {:induction false} MatchedMembers(p: Profile, candidates: seq<Record>, required: string)
    ensures forall r :: r in Matched(p, candidates, required) <==> r in candidates && ProfileMatch(p, r, true, required)
  {
    if candidates != [] {
      MatchedMembers(p, candidates[..|candidates| - 1], required);
      assert candidates == candidates[..|candidates| - 1] + [candidates[|candidates| - 1]];
    }
  }

  ghost function CandidatePlaces(p: Profile, records: seq<Record>): set<nat> {
    set n: nat | n < |records| && IsCandidate(p, records[n])
  }

  ghost function MatchedPlaces(p: Profile, records: seq<Record>, required: string): set<nat> {
    set n: nat | n < |records| && IsMatched(p, records[n], required)
  }

  lemma LastRecord(p: Profile, records: seq<Record>, required: string)
    requires records != []
    ensures var n := |records| - 1;
      && CandidatePlaces(p, records) == CandidatePlaces(p, records[..n]) + (if IsCandidate(p, records[n]) then {n} else {})
      && MatchedPlaces(p, records, required) ==
           MatchedPlaces(p, records[..n], required) + (if IsMatched(p, records[n], required) then {n} else {})
  {
    hide IsCandidate, IsMatched;
  }

  lemma NoRecords(p: Profile, required: string)
    ensures CandidatePlaces(p, []) == {} && MatchedPlaces(p, [], required) == {}
  {
  }

  /** The candidates and the matched records are those of the list, in order and as often as they occur. */
  lemma {:induction false} CountsFollowRecords(p: Profile, records: seq<Record>, required: string)
      returns (candidates: seq<nat>, matched: seq<nat>)
    ensures ArePlaces(candidates, CandidatePlaces(p, records)) && |candidates| == |Candidates(p, records)|
    ensures ArePlaces(matched, MatchedPlaces(p, records, required))
    ensures |matched| == |Matched(p, Candidates(p, records), required)|
    ensures (forall i :: 0 <= i < |candidates| ==> candidates[i] < |records|)
      && forall i :: 0 <= i < |matched| ==> matched[i] < |records|
  {
    hide CandidatePlaces, MatchedPlaces, IsCandidate, IsMatched;
    candidates, matched := [], [];
    if records == [] {
      NoRecords(p, required);
    } else {
      var n := |records| - 1;
      candidates, matched := CountsFollowRecords(p, records[..n], required);
      LastRecord(p, records, required);
      MatchedGrows(p, records, required);
      if IsCandidate(p, records[n]) {
        PlacesGrow(candidates, CandidatePlaces(p, records[..n]), n);
        candidates := candidates + [n];
      }
      if IsMatched(p, records[n], required) {
        PlacesGrow(matched, MatchedPlaces(p, records[..n], required), n);
        matched := matched + [n];
      }
    }
  }

  function Value(p: Profile, r: Record): real {
    match MetricValue(p, r)
    case Some(v) => v
    case None => 0.0
  }

  /** A matched record no other matched record beats. */
  ghost predicate IsBest(p: Profile, records: seq<Record>, required: string, r: Record) {
    && r in records && IsMatched(p, r, required)
    && forall o :: o in records && IsMatched(p, o, required) ==> Value(p, r) <= Value(p, o)
  }

  /** The best record listed first. */
  ghost predicate IsFirstBest(p: Profile, records: seq<Record>, required: string, i: int) {
    && 0 <= i < |records| && IsBest(p, records, required, records[i])
    && forall j :: 0 <= j < i && IsMatched(p, records[j], required) ==> Value(p, records[i]) < Value(p, records[j])
  }

  function Judge(p: Profile, best: real): Status {
    if best <= p.pass then (if p.target.Some? && best <= p.target.value then TARGET_MET else PASS)
    else if p.reportOnly then WARN else FAIL
  }

  /** The status says on which side of the limits the best value lies. */
  lemma JudgeMeans(p: Profile, best: real)
    ensures best <= p.pass <==> Judge(p, best).PASS? || Judge(p, best).TARGET_MET?
    ensures Judge(p, best).TARGET_MET? <==> best <= p.pass && p.target.Some? && best <= p.target.value
    ensures Judge(p, best).FAIL? <==> best > p.pass && !p.reportOnly
    ensures Judge(p, best).WARN? <==> best > p.pass && p.reportOnly
  {
  }

  // Why a candidate is not matched, in the order the conditions are tried.
  predicate RejectedIncomplete(p: Profile, r: Record, required: string) {
    IsCandidate(p, r) && NeedsProvenance(p, required) && !r.complete
  }
  predicate RejectedDirty(p: Profile, r: Record, required: string) {
    IsCandidate(p, r) && NeedsProvenance(p, required) && r.complete && !r.clean
  }
  predicate RejectedCommit(p: Profile, r: Record, required: string) {
    IsCandidate(p, r) && CommitBound(p, required) && r.complete && r.clean && r.commit != required
  }

  /** The three lists name exactly the rejected candidates of each kind, each label once. */
  ghost predicate RejectionsAre(p: Profile, records: seq<Record>, required: string, x: Rejections) {
    && (forall l :: l in x.incomplete <==> exists r :: r in records && RejectedIncomplete(p, r, required) && RunLabel(r) == l)
    && (forall l :: l in x.dirty <==> exists r :: r in records && RejectedDirty(p, r, required) && RunLabel(r) == l)
    && (forall l :: l in x.commitMismatch <==>
          exists r :: r in records && RejectedCommit(p, r, required) && CommitLabel(r) == l)
    && NeverTwice(x.incomplete) && NeverTwice(x.dirty) && NeverTwice(x.commitMismatch)
  }

  method AddLabel(labels: seq<string>, text: string) returns (out: seq<string>)
    requires NeverTwice(labels)
    ensures NeverTwice(out) && forall l :: l in out <==> l in labels || l == text
  {
    out := if text in labels then labels else labels + [text];
  }

  method CollectRejections(p: Profile, candidates: seq<Record>, required: string) returns (x: Rejections)
    requires forall r :: r in candidates ==> IsCandidate(p, r)
    ensures RejectionsAre(p, candidates, required, x)
  {
    x := Rejections([], [], []);
    if !NeedsProvenance(p, required) { return; }
    for n := 0 to |candidates|
      invariant RejectionsAre(p, candidates[..n], required, x)
    {
      var r := candidates[n];
      assert candidates[..n + 1] == candidates[..n] + [r] && r in candidates;
      ghost var before := x;
      if !r.complete {
        var labels := AddLabel(x.incomplete, RunLabel(r));
        x := x.(incomplete := labels);
      } else if !r.clean {
        var labels := AddLabel(x.dirty, RunLabel(r));
        x := x.(dirty := labels);
      } else if CommitBound(p, required) && r.commit != required {
        var labels := AddLabel(x.commitMismatch, CommitLabel(r));
        x := x.(commitMismatch := labels);
      }
      RejectionsStep(p, candidates[..n], r, required, before, x);
    }
    assert candidates[..|candidates|] == candidates;
  }

  lemma RejectionsStep(p: Profile, records: seq<Record>, r: Record, required: string, before: Rejections, after: Rejections)
    requires RejectionsAre(p, records, required, before)
    requires NeverTwice(after.incomplete) && NeverTwice(after.dirty) && NeverTwice(after.commitMismatch)
    requires forall l :: l in after.incomplete <==> l in before.incomplete || (RejectedIncomplete(p, r, required) && l == RunLabel(r))
    requires forall l :: l in after.dirty <==> l in before.dirty || (RejectedDirty(p, r, required) && l == RunLabel(r))
    requires forall l :: l in after.commitMismatch <==>
      l in before.commitMismatch || (RejectedCommit(p, r, required) && l == CommitLabel(r))
    ensures RejectionsAre(p, records + [r], required, after)
  {
    assert forall o :: o in records + [r] <==> o in records || o == r;
  }

  datatype Scored = Scored(rec: Record, value: real)

  predicate LowerValue(a: Scored, b: Scored) { a.value <= b.value }

  /** One profile of `evaluate_release_profiles`. */
  method EvaluateProfile(p: Profile, records: seq<Record>, required: string) returns (o: Outcome)
    ensures o.name == p.name && o.reportOnly == p.reportOnly
    ensures o.status == NO_DATA <==> forall r :: r in records ==> !IsMatched(p, r, required)
    ensures o.status == NO_DATA ==> o.bestRun == None && o.bestValue == None && o.matchedRuns == 0
    ensures o.status != NO_DATA ==> exists i ::
      IsFirstBest(p, records, required, i) && o.bestRun == Some(records[i].run)
      && o.bestValue == Some(Value(p, records[i])) && o.status == Judge(p, Value(p, records[i]))
    ensures o.candidateRuns == |Candidates(p, records)|
    ensures o.matchedRuns == |Matched(p, Candidates(p, records), required)|
    ensures RejectionsAre(p, records, required, o.rejections)
  {
    var candidates := Candidates(p, records);
    CandidateMembers(p, records);
    var matched := Matched(p, candidates, required);
    MatchedMembers(p, candidates, required);
    assert forall r :: r in matched <==> r in records && IsMatched(p, r, required);
    var rejections := CollectRejections(p, candidates, required);
    RejectionsOfCandidates(p, records, candidates, required, rejections);
    if matched == [] {
      return Outcome(p.name, NO_DATA, p.reportOnly, 0, |candidates|, None, None, rejections);
    }
    var scored := seq(|matched|, i requires 0 <= i < |matched| => Scored(matched[i], Value(p, matched[i])));
    var best := Sort(LowerValue, scored)[0];
    ghost var i := HeadIsFirstBest(p, records, required, scored);
    assert matched[0] in matched;
    o := Outcome(p.name, Judge(p, best.value), p.reportOnly, |matched|, |candidates|,
                 Some(best.rec.run), Some(best.value), rejections);
  }

  lemma RejectionsOfCandidates(p: Profile, records: seq<Record>, candidates: seq<Record>, required: string, x: Rejections)
    requires forall r :: r in candidates <==> r in records && IsCandidate(p, r)
    requires RejectionsAre(p, candidates, required, x)
    ensures RejectionsAre(p, records, required, x)
  {
  }

  /** The head of the scored list after sorting by value is the first best of the matched records. */
  lemma HeadIsFirst(p: Profile, matched: seq<Record>, scored: seq<Scored>) returns (k: nat)
    requires |scored| == |matched| > 0
    requires forall i :: 0 <= i < |matched| ==> scored[i] == Scored(matched[i], Value(p, matched[i]))
    ensures k < |matched| && |Sort(LowerValue, scored)| > 0
    ensures Sort(LowerValue, scored)[0] == Scored(matched[k], Value(p, matched[k]))
    ensures forall r :: r in matched ==> Value(p, matched[k]) <= Value(p, r)
    ensures forall r :: r in matched[..k] ==> Value(p, matched[k]) < Value(p, r)
  {
    k := SortStartsWithFirst(LowerValue, scored);
    forall n | 0 <= n < |matched|
      ensures Value(p, matched[k]) <= Value(p, matched[n]) && (n < k ==> Value(p, matched[k]) < Value(p, matched[n]))
    {
      assert LowerValue(scored[k], scored[n]) && (n < k ==> !LowerValue(scored[n], scored[k]));
    }
  }

  /** And so the first best record of the file. */
  lemma HeadIsFirstBest(p: Profile, records: seq<Record>, required: string, scored: seq<Scored>) returns (i: nat)
    requires var matched := Matched(p, Candidates(p, records), required);
      && |scored| == |matched| > 0
      && forall k :: 0 <= k < |matched| ==> scored[k] == Scored(matched[k], Value(p, matched[k]))
    ensures |Sort(LowerValue, scored)| > 0 && IsFirstBest(p, records, required, i)
    ensures Sort(LowerValue, scored)[0] == Scored(records[i], Value(p, records[i]))
  {
    var matched := Matched(p, Candidates(p, records), required);
    var k := HeadIsFirst(p, matched, scored);
    i := PlaceOfMatched(p, records, required, k);
    MatchedRecords(p, records, required);
    assert matched[k] in matched;
    forall j | 0 <= j < i && IsMatched(p, records[j], required) ensures Value(p, records[i]) < Value(p, records[j]) {
      assert records[..i][j] == records[j];
      MatchedRecords(p, records[..i], required);
      assert records[j] in matched[..k];
    }
  }

  lemma MatchedRecords(p: Profile, records: seq<Record>, required: string)
    ensures forall r :: r in Matched(p, Candidates(p, records), required) <==> r in records && IsMatched(p, r, required)
  {
    CandidateMembers(p, records);
    MatchedMembers(p, Candidates(p, records), required);
  }

  /** Where a matched record stands in the file: the ones matched before it stand before it. */
  lemma {:induction false} PlaceOfMatched(p: Profile, records: seq<Record>, required: string, k: nat) returns (i: nat)
    requires k < |Matched(p, Candidates(p, records), required)|
    ensures i < |records| && records[i] == Matched(p, Candidates(p, records), required)[k]
    ensures Matched(p, Candidates(p, records[..i]), required) == Matched(p, Candidates(p, records), required)[..k]
  {
    var init := records[..|records| - 1];
    MatchedGrows(p, records, required);
    if k < |Matched(p, Candidates(p, init), required)| {
      i := PlaceOfMatched(p, init, required, k);
      assert init[..i] == records[..i];
    } else {
      i := |records| - 1;
    }
  }

  lemma MatchedGrows(p: Profile, records: seq<Record>, required: string)
    requires records != []
    ensures var last := records[|records| - 1];
      Matched(p, Candidates(p, records), required) ==
        Matched(p, Candidates(p, records[..|records| - 1]), required) + if IsMatched(p, last, required) then [last] else []
  {
    var last := records[|records| - 1];
    var before := Candidates(p, records[..|records| - 1]);
    if IsCandidate(p, last) {
      var all := before + [last];
      assert Candidates(p, records) == all && all[..|all| - 1] == before && all[|all| - 1] == last;
    } else {
      assert Candidates(p, records) == before;
    }
  }

  // ---------- the gate ----------

  datatype ExitCode = Passed | UsageError | GateFailed

  predicate Fails(o: Outcome) { o.status == FAIL || (o.status == NO_DATA && !o.reportOnly) }

  ghost predicate Fits(p: Profile, records: seq<Record>, required: string, o: Outcome) {
    o.name == p.name && (Fails(o) <==> !Cleared(p, records, required))
  }

  method FittingOutcome(p: Profile, records: seq<Record>, required: string) returns (o: Outcome)
    ensures Fits(p, records, required, o)
  {
    o := EvaluateProfile(p, records, required);
    assert o.status != NO_DATA ==>
      exists r :: IsBest(p, records, required, r) && o.status == Judge(p, Value(p, r));
    OutcomeDecides(p, records, required, o);
  }

  /** `evaluate_release_profiles`: one outcome per profile, in order. */
  method EvaluateReleaseProfiles(profiles: seq<Profile>, records: seq<Record>, required: string)
      returns (outcomes: seq<Outcome>)
    ensures |outcomes| == |profiles|
    ensures forall i :: 0 <= i < |profiles| ==> Fits(profiles[i], records, required, outcomes[i])
  {
    outcomes := [];
    for n := 0 to |profiles|
      invariant |outcomes| == n
      invariant forall i :: 0 <= i < n ==> Fits(profiles[i], records, required, outcomes[i])
    {
      var o := FittingOutcome(profiles[n], records, required);
      outcomes := outcomes + [o];
    }
  }

  /** The profile gate of `main`, all profiles evaluated. */
  method Gate(profiles: seq<Profile>, records: seq<Record>, required: string, profilesGiven: bool)
      returns (code: ExitCode)
    ensures code == UsageError <==> !profilesGiven
    ensures profilesGiven ==> (code == Passed <==> forall p :: p in profiles ==> Cleared(p, records, required))
  {
    if !profilesGiven { return UsageError; }
    var outcomes := EvaluateReleaseProfiles(profiles, records, required);
    var failing := exists i :: 0 <= i < |outcomes| && Fails(outcomes[i]);
    if failing {
      var i :| 0 <= i < |outcomes| && Fails(outcomes[i]);
      assert Fits(profiles[i], records, required, outcomes[i]) && profiles[i] in profiles;
      return GateFailed;
    }
    assert forall i :: 0 <= i < |profiles| ==> Fits(profiles[i], records, required, outcomes[i]) && !Fails(outcomes[i]);
    return Passed;
  }

  /** A record that by itself clears a blocking profile. */
  predicate Evidence(p: Profile, r: Record, required: string) {
    && Selects(p, r) && MetricValue(p, r).Some? && MetricValue(p, r).value <= p.pass
    && (NeedsProvenance(p, required) ==> r.complete && r.clean)
    && (CommitBound(p, required) ==> r.commit == required)
  }

  /** Some stretch of the text reads like this. */
  ghost predicate Reads(s: string, part: string) { exists i, j :: 0 <= i <= j <= |s| && s[i..j] == part }

  /** A record that clears a profile, spelled out: each rule of the profile that is set is met, its error counts
      for the profile's metric, against ground truth where that is asked for, and is within the limit, and its
      provenance is complete, clean and at the commit where these are asked for. */
  ghost predicate Clears(p: Profile, r: Record, required: string) {
    && (p.rules.bag != "" ==> Reads(r.bag, p.rules.bag))
    && (p.rules.pointsTopic != "" ==> r.pointsTopic == p.rules.pointsTopic)
    && (p.rules.referenceKind != "" ==> r.referenceKind == p.rules.referenceKind)
    && (p.rules.referenceSource != "" ==> Reads(r.referenceSource, p.rules.referenceSource))
    && (p.rules.minPairs.Some? ==> r.pairs.Some? && p.rules.minPairs.value <= r.pairs.value)
    && !p.metric.UnknownMetric? && (p.metric.AgainstGroundTruth? ==> r.referenceKind == "ground_truth")
    && r.rmse.Some? && r.rmse.value <= p.pass
    && (p.rules.requireClean ==> r.complete && r.clean)
    && (required != "" && !p.reportOnly ==> r.complete && r.clean && r.commit == required)
  }

  lemma ReadsIsContains(s: string, part: string)
    ensures Reads(s, part) <==> Contains(s, part)
  {
    if i, j :| 0 <= i <= j <= |s| && s[i..j] == part {
      assert s[i..][..j - i] == part;
      assert StartsWith(s[i..], part);
    }
    if i :| 0 <= i <= |s| && StartsWith(s[i..], part) {
      assert s[i..i + |part|] == s[i..][..|part|] == part;
    }
  }

  lemma EvidenceClears(p: Profile, r: Record, required: string)
    ensures Evidence(p, r, required) <==> Clears(p, r, required)
  {
    ReadsIsContains(r.bag, p.rules.bag);
    ReadsIsContains(r.referenceSource, p.rules.referenceSource);
    NoneOrSome(p.rules.minPairs);
  }

  lemma NoneOrSome(o: Option<real>)
    ensures o == None || o.Some?
  {
  }

  /** A profile clears the gate when it only reports, or some record is evidence for it. */
  ghost predicate Cleared(p: Profile, records: seq<Record>, required: string) {
    p.reportOnly || exists r :: r in records && Evidence(p, r, required)
  }

  lemma OutcomeDecides(p: Profile, records: seq<Record>, required: string, o: Outcome)
    requires o.reportOnly == p.reportOnly
    requires o.status == NO_DATA <==> forall r :: r in records ==> !IsMatched(p, r, required)
    requires o.status != NO_DATA ==> exists r :: IsBest(p, records, required, r) && o.status == Judge(p, Value(p, r))
    ensures Fails(o) <==> !Cleared(p, records, required)
  {
    assert forall r :: Evidence(p, r, required) <==> IsMatched(p, r, required) && Value(p, r) <= p.pass;
    if o.status != NO_DATA {
      var best :| IsBest(p, records, required, best) && o.status == Judge(p, Value(p, best));
      if r :| r in records && Evidence(p, r, required) {
        assert Value(p, best) <= Value(p, r);
      } else {
        assert !Evidence(p, best, required);
      }
    }
  }

  /** The gate passes exactly when every profile only reports or has a record that clears it. */
  lemma GateSpelledOut(profiles: seq<Profile>, records: seq<Record>, required: string)
    ensures (forall p :: p in profiles ==> Cleared(p, records, required)) <==>
      (forall p :: p in profiles ==> p.reportOnly || exists r :: r in records && Clears(p, r, required))
  {
    forall p | p in profiles
      ensures Cleared(p, records, required) <==> p.reportOnly || exists r :: r in records && Clears(p, r, required)
    {
      forall r ensures Evidence(p, r, required) <==> Clears(p, r, required) {
        EvidenceClears(p, r, required);
      }
    }
  }

  /** With a required commit the blocking gate passes exactly when every non-report-only profile has a
      selected record, complete, clean, at that commit, within its pass limit. */
  lemma BlockingGateExactly(profiles: seq<Profile>, records: seq<Record>, required: string)
    requires required != ""
    ensures (forall p :: p in profiles ==> Cleared(p, records, required)) <==>
      (forall p :: p in profiles && !p.reportOnly ==>
        exists r :: r in records && Selects(p, r) && r.complete && r.clean && r.commit == required
          && MetricValue(p, r).Some? && MetricValue(p, r).value <= p.pass)
  {
    forall p | p in profiles && !p.reportOnly
      ensures Cleared(p, records, required) <==>
        exists r :: r in records && Selects(p, r) && r.complete && r.clean && r.commit == required
          && MetricValue(p, r).Some? && MetricValue(p, r).value <= p.pass
    {
      assert CommitBound(p, required) && NeedsProvenance(p, required);
    }
  }

  /** Adding runs never turns a pass into a block. */
  lemma MoreRunsNeverBlock(profiles: seq<Profile>, records: seq<Record>, more: seq<Record>, required: string)
    requires forall r :: r in records ==> r in more
    requires forall p :: p in profiles ==> Cleared(p, records, required)
    ensures forall p :: p in profiles ==> Cleared(p, more, required)
  {
  }

  /** Every candidate is matched or has exactly one of the three reasons against it. */
  lemma CandidatesAreAccountedFor(p: Profile, r: Record, required: string)
    requires IsCandidate(p, r)
    ensures IsMatched(p, r, required) <==>
      !RejectedIncomplete(p, r, required) && !RejectedDirty(p, r, required) && !RejectedCommit(p, r, required)
    ensures !(RejectedIncomplete(p, r, required) && RejectedDirty(p, r, required))
    ensures !(RejectedIncomplete(p, r, required) && RejectedCommit(p, r, required))
    ensures !(RejectedDirty(p, r, required) && RejectedCommit(p, r, required))
  {
  }

  /** So when there are candidates but no data, some rejection list says why. */
  lemma NoDataIsExplained(p: Profile, records: seq<Record>, required: string, o: Outcome)
    requires o.status == NO_DATA && (forall r :: r in records ==> !IsMatched(p, r, required))
    requires RejectionsAre(p, records, required, o.rejections)
    ensures (exists r :: r in records && IsCandidate(p, r)) <==>
      o.rejections.incomplete != [] || o.rejections.dirty != [] || o.rejections.commitMismatch != []
  {
    var x := o.rejections;
    if r :| r in records && IsCandidate(p, r) {
      CandidatesAreAccountedFor(p, r, required);
      assert RejectedIncomplete(p, r, required) ==> RunLabel(r) in x.incomplete;
      assert RejectedDirty(p, r, required) ==> RunLabel(r) in x.dirty;
      assert RejectedCommit(p, r, required) ==> CommitLabel(r) in x.commitMismatch;
    }
    if x.incomplete != [] { assert x.incomplete[0] in x.incomplete; }
    if x.dirty != [] { assert x.dirty[0] in x.dirty; }
    if x.commitMismatch != [] { assert x.commitMismatch[0] in x.commitMismatch; }
  }
}
