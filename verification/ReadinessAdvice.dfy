/** The advice of a readiness report, told from what the inspections were given (`evaluate_readiness` in
    scripts/check_ndt_omp_release_readiness.py). */
module ReadinessAdvice {
  import opened Options
  import opened ReleaseReadiness

  /** What the inspection of one pull request is given. */
  datatype Given = Given(
    state: PrState, merged: bool, mergeable: Option<bool>, author: string, activity: seq<Activity>, runs: seq<CheckRun>)

  /** Every pull request of the report was inspected. */
  ghost predicate AllInspected(distros: seq<string>, r: Remote, given: map<string, Given>) {
    forall d :: d in distros ==>
      && d in r.listed && d in r.prs && d in given
      && var g := given[d];
         ReportedFrom(r.prs[d], g.state, g.merged, g.mergeable, g.author, g.activity, g.runs)
  }

  // ---------- what can be wrong with a request ----------

  datatype Problem = ClosedRequest | ConflictingRequest | FailedRun | UnfinishedRun | NoRuns | UnansweredReview
                   | UnknownMergeability

  predicate HasFailed(run: CheckRun) {
    run.CheckRun? && run.status == "completed"
    && run.conclusion != Some("success") && run.conclusion != Some("neutral") && run.conclusion != Some("skipped")
  }

  predicate IsUnfinished(run: CheckRun) { run.CheckRun? && run.status != "completed" }

  ghost predicate Has(g: Given, p: Problem) {
    match p
    case ClosedRequest => g.state == Closed && !g.merged
    case ConflictingRequest => g.state == Open && g.mergeable == Some(false)
    case FailedRun => g.state == Open && exists run :: run in g.runs && HasFailed(run)
    case UnfinishedRun => g.state == Open && exists run :: run in g.runs && IsUnfinished(run)
    case NoRuns => g.state == Open && g.runs == []
    case UnansweredReview =>
      !g.merged && exists a :: a in g.activity && IsActionable(g.author, a) && !Answered(g.author, g.activity, a)
    case UnknownMergeability => g.state == Open && g.mergeable == None
  }

  lemma ClassesOfRuns(pr: PullRequest, g: Given, c: Class)
    requires ReportedFrom(pr, g.state, g.merged, g.mergeable, g.author, g.activity, g.runs)
    ensures CountOf(pr.checks.value.runs.value, c) > 0 <==> exists run :: run in g.runs && run.CheckRun? && ClassOf(run) == c
  {
    var classes := pr.checks.value.runs.value;
    CountExtremes(classes, c);
    if c in classes {
      var i :| 0 <= i < |classes| && classes[i] == c;
      assert g.runs[i] in g.runs;
    }
    if run :| run in g.runs && run.CheckRun? && ClassOf(run) == c {
      var i :| 0 <= i < |g.runs| && g.runs[i] == run;
      assert classes[i] in classes;
    }
  }

  lemma ClassesMean(run: CheckRun)
    requires run.CheckRun?
    ensures ClassOf(run) == FAILING <==> HasFailed(run)
    ensures ClassOf(run) == PENDING <==> IsUnfinished(run)
  {
    match run.conclusion
    case None =>
    case Some(s) =>
  }

  /** The conditions tested on the report are those of what was given. */
  lemma ConditionsMean(pr: PullRequest, g: Given)
    requires ReportedFrom(pr, g.state, g.merged, g.mergeable, g.author, g.activity, g.runs)
    ensures Inspected(pr) && pr.checks.Some?
    ensures ClosedUnmerged(pr) <==> Has(g, ClosedRequest)
    ensures Unmergeable(pr) <==> Has(g, ConflictingRequest)
    ensures FailingChecks(pr) <==> Has(g, FailedRun)
    ensures PendingChecks(pr) <==> Has(g, UnfinishedRun)
    ensures MissingChecks(pr) <==> Has(g, NoRuns)
    ensures ReviewPending(pr) <==> Has(g, UnansweredReview)
    ensures MergeabilityOpen(pr) <==> Has(g, UnknownMergeability)
    ensures pr.checks.value.failing >= 0 && pr.checks.value.pending >= 0
  {
    ReportsAreConsistent(pr, g.state, g.merged, g.mergeable, g.author, g.activity, g.runs);
    ClassesOfRuns(pr, g, FAILING);
    ClassesOfRuns(pr, g, PENDING);
    forall run | run in g.runs && run.CheckRun?
      ensures ClassOf(run) == FAILING <==> HasFailed(run)
      ensures ClassOf(run) == PENDING <==> IsUnfinished(run)
    {
      ClassesMean(run);
    }
  }

  // ---------- the branches ----------

  predicate AllListed(distros: seq<string>, r: Remote) { forall d :: d in distros ==> d in r.listed }

  /** The inspection worked, at the expected commit, and says of every artifact whether it is there. */
  predicate Clean(distros: seq<string>, r: Remote)
    requires AllListed(distros, r)
  {
    && r.errors == 0 && r.atExpectedCommit && r.tag.Some? && r.repository.Some?
    && forall d :: d in distros ==> r.listed[d].Some?
  }

  /** Tag, release repository and all distributions are there, or none of them. */
  predicate AllThere(distros: seq<string>, r: Remote, there: bool)
    requires AllListed(distros, r)
  {
    r.tag == Some(there) && r.repository == Some(there) && forall d :: d in distros ==> r.listed[d] == Some(there)
  }

  /** The release has begun and is not complete. */
  predicate UnderWay(localReady: bool, offline: bool, distros: seq<string>, r: Remote)
    requires AllListed(distros, r)
  {
    localReady && !offline && Clean(distros, r) && !AllThere(distros, r, false) && !AllThere(distros, r, true)
  }

  predicate Unlisted(distros: seq<string>, r: Remote, d: string)
    requires AllListed(distros, r)
  {
    d in distros && r.listed[d] == Some(false)
  }

  /** The request of some unlisted distribution has the problem. */
  ghost predicate Somewhere(distros: seq<string>, r: Remote, given: map<string, Given>, p: Problem)
    requires AllInspected(distros, r, given)
  {
    exists d :: Unlisted(distros, r, d) && Has(given[d], p)
  }

  ghost predicate ChecksWrong(distros: seq<string>, r: Remote, given: map<string, Given>)
    requires AllInspected(distros, r, given)
  {
    Somewhere(distros, r, given, FailedRun) || Somewhere(distros, r, given, UnfinishedRun) || Somewhere(distros, r, given, NoRuns)
  }

  lemma OneRequest(distros: seq<string>, r: Remote, given: map<string, Given>, d: string)
    requires Complete(distros, r) && AllInspected(distros, r, given) && Clean(distros, r) && d in distros
    ensures !Listed(r, d) <==> Unlisted(distros, r, d)
    ensures Inspected(r.prs[d])
    ensures ClosedUnmerged(r.prs[d]) <==> Has(given[d], ClosedRequest)
    ensures Unmergeable(r.prs[d]) <==> Has(given[d], ConflictingRequest)
    ensures FailingChecks(r.prs[d]) <==> Has(given[d], FailedRun)
    ensures PendingChecks(r.prs[d]) <==> Has(given[d], UnfinishedRun)
    ensures MissingChecks(r.prs[d]) <==> Has(given[d], NoRuns)
    ensures ReviewPending(r.prs[d]) <==> Has(given[d], UnansweredReview)
    ensures MergeabilityOpen(r.prs[d]) <==> Has(given[d], UnknownMergeability)
    ensures r.prs[d].checks.value.failing >= 0 && r.prs[d].checks.value.pending >= 0
  {
    ConditionsMean(r.prs[d], given[d]);
    ThreeValues(r.listed[d]);
  }

  lemma AnyMeans(distros: seq<string>, r: Remote, given: map<string, Given>)
    requires Complete(distros, r) && AllInspected(distros, r, given) && Clean(distros, r)
    ensures Any(distros, r, ClosedUnmerged) <==> Somewhere(distros, r, given, ClosedRequest)
    ensures Any(distros, r, Unmergeable) <==> Somewhere(distros, r, given, ConflictingRequest)
    ensures Any(distros, r, FailingChecks) <==> Somewhere(distros, r, given, FailedRun)
    ensures Any(distros, r, PendingChecks) <==> Somewhere(distros, r, given, UnfinishedRun)
    ensures Any(distros, r, MissingChecks) <==> Somewhere(distros, r, given, NoRuns)
    ensures Any(distros, r, ReviewPending) <==> Somewhere(distros, r, given, UnansweredReview)
    ensures Any(distros, r, MergeabilityOpen) <==> Somewhere(distros, r, given, UnknownMergeability)
    ensures forall d :: d in distros ==> Inspected(r.prs[d])
  {
    hide Has, Inspected;
    forall d | d in distros
      ensures (!Listed(r, d) <==> Unlisted(distros, r, d)) && Inspected(r.prs[d])
      ensures (ClosedUnmerged(r.prs[d]) <==> Has(given[d], ClosedRequest))
        && (Unmergeable(r.prs[d]) <==> Has(given[d], ConflictingRequest))
        && (FailingChecks(r.prs[d]) <==> Has(given[d], FailedRun))
        && (PendingChecks(r.prs[d]) <==> Has(given[d], UnfinishedRun))
        && (MissingChecks(r.prs[d]) <==> Has(given[d], NoRuns))
        && (ReviewPending(r.prs[d]) <==> Has(given[d], UnansweredReview))
        && (MergeabilityOpen(r.prs[d]) <==> Has(given[d], UnknownMergeability))
    {
      OneRequest(distros, r, given, d);
    }
  }

  lemma FailedMeans(distros: seq<string>, r: Remote, given: map<string, Given>)
    requires Complete(distros, r) && AllInspected(distros, r, given)
    ensures RemoteFailed(distros, r) <==> !Clean(distros, r)
  {
    if Clean(distros, r) {
      AnyMeans(distros, r, given);
    }
  }

  lemma ArtifactsMean(distros: seq<string>, r: Remote)
    requires Complete(distros, r) && Clean(distros, r)
    ensures !AnyArtifact(distros, r, true) <==> AllThere(distros, r, false)
    ensures !AnyArtifact(distros, r, false) <==> AllThere(distros, r, true)
  {
    ThreeValues(r.tag);
    ThreeValues(r.repository);
    forall d | d in distros ensures r.listed[d] == Some(true) || r.listed[d] == Some(false) {
      ThreeValues(r.listed[d]);
    }
  }

  /** The branch before the requests are looked at. */
  lemma EarlyBranches(localReady: bool, offline: bool, distros: seq<string>, r: Remote, given: map<string, Given>)
    requires Complete(distros, r) && AllInspected(distros, r, given)
    ensures var b := BranchOf(localReady, offline, distros, r);
      && (b == NotLocal <==> !localReady)
      && (b == Offline <==> localReady && offline)
      && (b == Failed <==> localReady && !offline && !Clean(distros, r))
      && (b == Nothing <==> localReady && !offline && Clean(distros, r) && AllThere(distros, r, false))
      && (b == Everything <==> localReady && !offline && Clean(distros, r) && AllThere(distros, r, true))
      && (b in {ClosedPr, Conflict, ChecksOpen, ReviewOpen, MergeOpen, InProgress} <==>
            UnderWay(localReady, offline, distros, r))
  {
    hide RemoteFailed, AnyArtifact, Any;
    FailedMeans(distros, r, given);
    if Clean(distros, r) {
      ArtifactsMean(distros, r);
    }
  }

  /** The branch of a release under way: the first problem in this order decides. */
  lemma LateBranches(localReady: bool, offline: bool, distros: seq<string>, r: Remote, given: map<string, Given>)
    requires Complete(distros, r) && AllInspected(distros, r, given) && UnderWay(localReady, offline, distros, r)
    ensures var b := BranchOf(localReady, offline, distros, r);
      b == if Somewhere(distros, r, given, ClosedRequest) then ClosedPr
           else if Somewhere(distros, r, given, ConflictingRequest) then Conflict
           else if ChecksWrong(distros, r, given) then ChecksOpen
           else if Somewhere(distros, r, given, UnansweredReview) then ReviewOpen
           else if Somewhere(distros, r, given, UnknownMergeability) then MergeOpen
           else InProgress
  {
    hide RemoteFailed, AnyArtifact, Any, Somewhere;
    FailedMeans(distros, r, given);
    ArtifactsMean(distros, r);
    AnyMeans(distros, r, given);
  }

  // ---------- the advice ----------

  /** The report holds this action. */
  predicate Advised(localReady: bool, offline: bool, distros: seq<string>, r: Remote, a: Action)
    requires Complete(distros, r)
  {
    a in ActionsOf(BranchOf(localReady, offline, distros, r), distros, r)
  }

  lemma AdvisedMeans(localReady: bool, offline: bool, distros: seq<string>, r: Remote, a: Action)
    requires Complete(distros, r)
    ensures var b := BranchOf(localReady, offline, distros, r);
      Advised(localReady, offline, distros, r, a) <==>
        a in General(b, r) || exists loop :: loop in LoopsOf(b) && DueFrom(loop, distros, r, a)
  {
    AllLoopActionsAre(LoopsOf(BranchOf(localReady, offline, distros, r)), distros, r, a);
  }

  /** The distribution an action names. */
  function Subject(a: Action): Option<string> {
    match a
    case ReplaceClosed(d) => Some(d)
    case ResolveConflict(d) => Some(d)
    case AnswerReview(d) => Some(d)
    case RepairChecks(d) => Some(d)
    case AwaitChecks(d) => Some(d)
    case ObtainChecks(d) => Some(d)
    case AwaitMergeability(d) => Some(d)
    case WaitForMerge(d) => Some(d)
    case BloomRelease(d) => Some(d)
    case _ => None
  }

  lemma DueNamesItsOwn(distros: seq<string>, r: Remote, loop: Loop, d: string, a: Action)
    requires Complete(distros, r)
    ensures d in distros && a in Due(loop, r, d) ==> Subject(a) == Some(d)
  {
  }

  lemma DueForOne(distros: seq<string>, r: Remote, loop: Loop, d: string, a: Action)
    requires Complete(distros, r) && Subject(a) == Some(d)
    ensures DueFrom(loop, distros, r, a) <==> d in distros && !Listed(r, d) && a in Due(loop, r, d)
  {
    hide Due, Subject;
    if DueFrom(loop, distros, r, a) {
      var e :| e in distros && !Listed(r, e) && a in Due(loop, r, e);
      DueNamesItsOwn(distros, r, loop, e, a);
    }
  }

  lemma OneDue(pr: PullRequest, r: Remote, d: string, loop: Loop)
    requires d in r.prs && r.prs[d] == pr && pr.checks.Some?
    requires pr.checks.value.failing >= 0 && pr.checks.value.pending >= 0
    ensures ReplaceClosed(d) in Due(loop, r, d) <==> loop == Closings && ClosedUnmerged(pr)
    ensures ResolveConflict(d) in Due(loop, r, d) <==> loop == Conflicts && Unmergeable(pr)
    ensures AnswerReview(d) in Due(loop, r, d) <==> loop == Answers && ReviewPending(pr)
    ensures AwaitMergeability(d) in Due(loop, r, d) <==> loop == Mergeability && MergeabilityOpen(pr)
    ensures RepairChecks(d) in Due(loop, r, d) <==> loop == CheckRuns && FailingChecks(pr)
    ensures AwaitChecks(d) in Due(loop, r, d) <==> loop == CheckRuns && PendingChecks(pr)
    ensures ObtainChecks(d) in Due(loop, r, d) <==> loop == CheckRuns && MissingChecks(pr)
    ensures WaitForMerge(d) in Due(loop, r, d) <==> loop == Waits && r.tag == Some(true) && r.repository == Some(true)
    ensures BloomRelease(d) in Due(loop, r, d) <==> loop == Waits && !(r.tag == Some(true) && r.repository == Some(true))
  {
  }

  /** The loop in which an action is appended, and the problem it is about. */
  function LoopOf(a: Action): Option<(Loop, Problem)> {
    match a
    case ReplaceClosed(_) => Some((Closings, ClosedRequest))
    case ResolveConflict(_) => Some((Conflicts, ConflictingRequest))
    case RepairChecks(_) => Some((CheckRuns, FailedRun))
    case AwaitChecks(_) => Some((CheckRuns, UnfinishedRun))
    case ObtainChecks(_) => Some((CheckRuns, NoRuns))
    case AnswerReview(_) => Some((Answers, UnansweredReview))
    case AwaitMergeability(_) => Some((Mergeability, UnknownMergeability))
    case _ => None
  }

  lemma DueMeans(distros: seq<string>, r: Remote, given: map<string, Given>, loop: Loop, a: Action)
    requires Complete(distros, r) && AllInspected(distros, r, given) && Clean(distros, r) && LoopOf(a).Some?
    ensures DueFrom(loop, distros, r, a) <==>
      && loop == LoopOf(a).value.0
      && var d := Subject(a).value; Unlisted(distros, r, d) && Has(given[d], LoopOf(a).value.1)
  {
    hide Has, Due, DueFrom, Inspected;
    var d := Subject(a).value;
    DueForOne(distros, r, loop, d, a);
    if d in distros {
      OneRequest(distros, r, given, d);
      OneDue(r.prs[d], r, d, loop);
    }
  }

  lemma LastLoopMeans(distros: seq<string>, r: Remote, given: map<string, Given>, loop: Loop, d: string)
    requires Complete(distros, r) && AllInspected(distros, r, given) && Clean(distros, r)
    ensures DueFrom(loop, distros, r, WaitForMerge(d)) <==>
      loop == Waits && Unlisted(distros, r, d) && r.tag.value && r.repository.value
    ensures DueFrom(loop, distros, r, BloomRelease(d)) <==>
      loop == Waits && Unlisted(distros, r, d) && !(r.tag.value && r.repository.value)
  {
    hide Has, Due, DueFrom, Inspected;
    DueForOne(distros, r, loop, d, WaitForMerge(d));
    DueForOne(distros, r, loop, d, BloomRelease(d));
    if d in distros {
      OneRequest(distros, r, given, d);
      OneDue(r.prs[d], r, d, loop);
    }
  }

  /** Problems that are looked at before this one and keep it from being advised on. */
  ghost predicate Overshadowed(distros: seq<string>, r: Remote, given: map<string, Given>, p: Problem)
    requires AllInspected(distros, r, given)
  {
    && p != ClosedRequest
    && (Somewhere(distros, r, given, ClosedRequest)
        || ((p.FailedRun? || p.UnfinishedRun? || p.NoRuns?) && Somewhere(distros, r, given, ConflictingRequest))
        || (p.UnknownMergeability? &&
              (Somewhere(distros, r, given, ConflictingRequest) || ChecksWrong(distros, r, given)
               || Somewhere(distros, r, given, UnansweredReview))))
  }

  /** The actions on requests, told from what the inspections were given. Each is advised for exactly the unlisted
      distributions with its problem, in a release under way, unless an earlier problem takes precedence: a closed
      request before all, a conflict before check runs and unknown mergeability, check runs and reviews before
      unknown mergeability. An unanswered review is advised on beside a conflict or check runs. */
  lemma RequestAdvice(
      localReady: bool, offline: bool, distros: seq<string>, r: Remote, given: map<string, Given>, a: Action)
    requires Complete(distros, r) && AllInspected(distros, r, given) && LoopOf(a).Some?
    ensures var d, p := Subject(a).value, LoopOf(a).value.1;
      Advised(localReady, offline, distros, r, a) <==>
        && UnderWay(localReady, offline, distros, r)
        && Unlisted(distros, r, d) && Has(given[d], p) && !Overshadowed(distros, r, given, p)
  {
    hide Has, DueFrom, Clean, AllThere, Advised, Somewhere;
    var b := BranchOf(localReady, offline, distros, r);
    var d, p := Subject(a).value, LoopOf(a).value.1;
    AdvisedMeans(localReady, offline, distros, r, a);
    EarlyBranches(localReady, offline, distros, r, given);
    if UnderWay(localReady, offline, distros, r) {
      LateBranches(localReady, offline, distros, r, given);
      forall loop ensures DueFrom(loop, distros, r, a) <==>
        loop == LoopOf(a).value.0 && Unlisted(distros, r, d) && Has(given[d], p)
      {
        DueMeans(distros, r, given, loop, a);
      }
      var here := LoopOf(a).value.0;
      assert DueFrom(here, distros, r, a) <==> Unlisted(distros, r, d) && Has(given[d], p);
      assert Advised(localReady, offline, distros, r, a) <==> here in LoopsOf(b) && DueFrom(here, distros, r, a);
      LoopsOfBranches(b, here);
      HereIsSomewhere(distros, r, given, d, p);
    } else {
      assert LoopsOf(b) == [];
    }
  }

  lemma HereIsSomewhere(distros: seq<string>, r: Remote, given: map<string, Given>, d: string, p: Problem)
    requires AllInspected(distros, r, given)
    ensures Unlisted(distros, r, d) && Has(given[d], p) ==> Somewhere(distros, r, given, p)
  {
  }

  lemma LoopsOfBranches(b: Branch, loop: Loop)
    ensures loop in LoopsOf(b) <==>
      match loop
      case Closings => b == ClosedPr
      case Conflicts => b == Conflict
      case CheckRuns => b == ChecksOpen
      case Answers => b == Conflict || b == ChecksOpen || b == ReviewOpen
      case Mergeability => b == MergeOpen
      case Waits => b == InProgress
  {
  }

  /** No unlisted distribution has any problem. */
  ghost predicate NoProblem(distros: seq<string>, r: Remote, given: map<string, Given>)
    requires AllInspected(distros, r, given)
  {
    forall p :: !Somewhere(distros, r, given, p)
  }

  lemma InProgressMeans(localReady: bool, offline: bool, distros: seq<string>, r: Remote, given: map<string, Given>)
    requires Complete(distros, r) && AllInspected(distros, r, given)
    ensures BranchOf(localReady, offline, distros, r) == InProgress <==>
      UnderWay(localReady, offline, distros, r) && NoProblem(distros, r, given)
  {
    hide Clean, AllThere, Somewhere;
    EarlyBranches(localReady, offline, distros, r, given);
    if UnderWay(localReady, offline, distros, r) {
      LateBranches(localReady, offline, distros, r, given);
      if BranchOf(localReady, offline, distros, r) == InProgress {
        forall p ensures !Somewhere(distros, r, given, p) {
          match p
          case ClosedRequest =>
          case ConflictingRequest =>
          case FailedRun =>
          case UnfinishedRun =>
          case NoRuns =>
          case UnansweredReview =>
          case UnknownMergeability =>
        }
      }
    }
  }

  /** Without any problem: wait for the merge where tag and release repository exist, release by Bloom where not,
      and create what is missing of the two. */
  lemma ProgressAdvice(
      localReady: bool, offline: bool, distros: seq<string>, r: Remote, given: map<string, Given>, d: string)
    requires Complete(distros, r) && AllInspected(distros, r, given)
    ensures var smooth := UnderWay(localReady, offline, distros, r) && NoProblem(distros, r, given);
      && (Advised(localReady, offline, distros, r, WaitForMerge(d)) <==>
            smooth && Unlisted(distros, r, d) && r.tag == Some(true) && r.repository == Some(true))
      && (Advised(localReady, offline, distros, r, BloomRelease(d)) <==>
            smooth && Unlisted(distros, r, d) && (r.tag == Some(false) || r.repository == Some(false)))
      && (Advised(localReady, offline, distros, r, CreateTag) <==> smooth && r.tag == Some(false))
      && (Advised(localReady, offline, distros, r, CreateRepository) <==> smooth && r.repository == Some(false))
  {
    hide DueFrom, AllThere, Advised, NoProblem, Unlisted;
    var b := BranchOf(localReady, offline, distros, r);
    InProgressMeans(localReady, offline, distros, r, given);
    EarlyBranches(localReady, offline, distros, r, given);
    ThreeValues(r.tag);
    ThreeValues(r.repository);
    AdvisedMeans(localReady, offline, distros, r, WaitForMerge(d));
    AdvisedMeans(localReady, offline, distros, r, BloomRelease(d));
    AdvisedMeans(localReady, offline, distros, r, CreateTag);
    AdvisedMeans(localReady, offline, distros, r, CreateRepository);
    NeverDue(distros, r, CreateTag);
    NeverDue(distros, r, CreateRepository);
    if UnderWay(localReady, offline, distros, r) {
      forall loop
        ensures DueFrom(loop, distros, r, WaitForMerge(d)) <==>
          loop == Waits && Unlisted(distros, r, d) && r.tag.value && r.repository.value
        ensures DueFrom(loop, distros, r, BloomRelease(d)) <==>
          loop == Waits && Unlisted(distros, r, d) && !(r.tag.value && r.repository.value)
      {
        LastLoopMeans(distros, r, given, loop, d);
      }
      LoopsOfBranches(b, Waits);
    }
  }

  lemma NeverDue(distros: seq<string>, r: Remote, a: Action)
    requires Complete(distros, r) && Subject(a) == None
    ensures forall loop :: !DueFrom(loop, distros, r, a)
  {
    forall loop ensures !DueFrom(loop, distros, r, a) {
      if DueFrom(loop, distros, r, a) {
        var e :| e in distros && !Listed(r, e) && a in Due(loop, r, e);
        DueNamesItsOwn(distros, r, loop, e, a);
      }
    }
  }

  /** The advice that is given before any request is looked at. */
  lemma EarlyAdvice(localReady: bool, offline: bool, distros: seq<string>, r: Remote, given: map<string, Given>)
    requires Complete(distros, r) && AllInspected(distros, r, given)
    ensures Advised(localReady, offline, distros, r, RepairCandidate) <==> !localReady
    ensures Advised(localReady, offline, distros, r, RunOnline) <==> localReady && offline
    ensures Advised(localReady, offline, distros, r, ResolveInspection) <==>
      localReady && !offline && !Clean(distros, r)
    ensures Advised(localReady, offline, distros, r, TagAndBloom) <==>
      localReady && !offline && Clean(distros, r) && AllThere(distros, r, false)
    ensures Advised(localReady, offline, distros, r, ProceedWithGate) <==>
      localReady && !offline && Clean(distros, r) && AllThere(distros, r, true)
  {
    hide DueFrom, Clean, AllThere, Advised;
    EarlyBranches(localReady, offline, distros, r, given);
    forall a | a in {RepairCandidate, RunOnline, ResolveInspection, TagAndBloom, ProceedWithGate}
      ensures Advised(localReady, offline, distros, r, a) <==> a in General(BranchOf(localReady, offline, distros, r), r)
    {
      AdvisedMeans(localReady, offline, distros, r, a);
      NeverDue(distros, r, a);
    }
  }

  /** The status, told from what the inspections were given. */
  lemma StatusMeans(localReady: bool, offline: bool, distros: seq<string>, r: Remote, given: map<string, Given>)
    requires Complete(distros, r) && AllInspected(distros, r, given)
    ensures var status, online := StatusOf(BranchOf(localReady, offline, distros, r)), localReady && !offline;
      && (status == LOCAL_READY <==> localReady && offline)
      && (status == READY_TO_TAG <==> online && Clean(distros, r) && AllThere(distros, r, false))
      && (status == RELEASED <==> online && Clean(distros, r) && AllThere(distros, r, true))
      && (status == IN_PROGRESS <==> UnderWay(localReady, offline, distros, r) && NoProblem(distros, r, given))
      && (status == REVIEW_REQUIRED <==>
            && UnderWay(localReady, offline, distros, r) && Somewhere(distros, r, given, UnansweredReview)
            && !Somewhere(distros, r, given, ClosedRequest) && !Somewhere(distros, r, given, ConflictingRequest)
            && !ChecksWrong(distros, r, given))
  {
    hide Clean, AllThere, Somewhere;
    EarlyBranches(localReady, offline, distros, r, given);
    InProgressMeans(localReady, offline, distros, r, given);
    if UnderWay(localReady, offline, distros, r) {
      LateBranches(localReady, offline, distros, r, given);
    }
  }
}
