/** The release-readiness decision (scripts/check_ndt_omp_release_readiness.py): check runs, review
    activity, and the status with its recommended actions, for any list of distributions. */
module ReleaseReadiness {
  import opened Sequences
  import opened Options

  datatype Result<T> = Ok(value: T) | Err

  // ---------- _inspect_check_runs ----------

  datatype CheckRun = CheckRun(name: string, status: string, conclusion: Option<string>) | Incomplete
  datatype Class = PENDING | PASSING | FAILING

  /** Counts and classes of the runs at one commit; `runs` is None when the report has no list. */
  datatype Checks = Checks(inspected: bool, total: int, passing: int, pending: int, failing: int, runs: Option<seq<Class>>)

  predicate PassingConclusion(c: Option<string>) { c.Some? && c.value in {"success", "neutral", "skipped"} }

  function ClassOf(run: CheckRun): Class
    requires run.CheckRun?
  {
    if run.status != "completed" then PENDING else if PassingConclusion(run.conclusion) then PASSING else FAILING
  }

  function CountOf(classes: seq<Class>, c: Class): nat {
    if classes == [] then 0 else CountOf(classes[..|classes| - 1], c) + if classes[|classes| - 1] == c then 1 else 0
  }

  /** Every run must be complete and the response must not be truncated; each run is counted once. */
  method InspectCheckRuns(totalCount: int, items: seq<CheckRun>) returns (r: Result<Checks>)
    ensures r.Ok? <==> totalCount == |items| && Incomplete !in items
    ensures r.Ok? ==>
      && r.value.inspected && r.value.total == |items| && r.value.runs.Some?
      && |r.value.runs.value| == |items|
      && (forall i :: 0 <= i < |items| ==> items[i].CheckRun? && r.value.runs.value[i] == ClassOf(items[i]))
      && r.value.passing == CountOf(r.value.runs.value, PASSING)
      && r.value.pending == CountOf(r.value.runs.value, PENDING)
      && r.value.failing == CountOf(r.value.runs.value, FAILING)
  {
    if totalCount != |items| { return Err; }
    var runs: seq<Class> := [];
    var passing, pending, failing := 0, 0, 0;
    for n := 0 to |items|
      invariant |runs| == n && Incomplete !in items[..n]
      invariant forall i :: 0 <= i < n ==> items[i].CheckRun? && runs[i] == ClassOf(items[i])
      invariant passing == CountOf(runs, PASSING) && pending == CountOf(runs, PENDING) && failing == CountOf(runs, FAILING)
    {
      var item := items[n];
      if item.Incomplete? { return Err; }
      var classification;
      if item.status != "completed" {
        classification := PENDING;
        pending := pending + 1;
      } else if PassingConclusion(item.conclusion) {
        classification := PASSING;
        passing := passing + 1;
      } else {
        classification := FAILING;
        failing := failing + 1;
      }
      assert (runs + [classification])[..n] == runs;
      runs := runs + [classification];
    }
    return Ok(Checks(true, totalCount, passing, pending, failing, Some(runs)));
  }

  /** The three counts partition the runs. */
  lemma {:induction false} CountsPartition(classes: seq<Class>)
    ensures CountOf(classes, PASSING) + CountOf(classes, PENDING) + CountOf(classes, FAILING) == |classes|
  {
    if classes != [] {
      CountsPartition(classes[..|classes| - 1]);
    }
  }

  lemma {:induction false} CountIsZero(classes: seq<Class>, c: Class)
    ensures CountOf(classes, c) == 0 <==> c !in classes
  {
    if classes != [] {
      CountIsZero(classes[..|classes| - 1], c);
      LastOrBefore(classes);
    }
  }

  lemma {:induction false} CountAtMost(classes: seq<Class>, c: Class)
    ensures CountOf(classes, c) <= |classes|
  {
    if classes != [] {
      CountAtMost(classes[..|classes| - 1], c);
    }
  }

  predicate AllOf(classes: seq<Class>, c: Class) { forall x :: x in classes ==> x == c }

  lemma AllOfSplits(classes: seq<Class>, c: Class)
    requires classes != []
    ensures AllOf(classes, c) <==> classes[|classes| - 1] == c && AllOf(classes[..|classes| - 1], c)
  {
    var before, last := classes[..|classes| - 1], classes[|classes| - 1];
    assert classes == before + [last];
    assert last in classes;
    forall x | x in before ensures x in classes {
    }
    forall x | x in classes ensures x in before || x == last {
    }
  }

  lemma {:induction false} CountIsFull(classes: seq<Class>, c: Class)
    ensures CountOf(classes, c) == |classes| <==> AllOf(classes, c)
  {
    if classes != [] {
      CountIsFull(classes[..|classes| - 1], c);
      CountAtMost(classes[..|classes| - 1], c);
      AllOfSplits(classes, c);
    }
  }

  /** A count vanishes exactly when no run is of its class, and is full exactly when all are. */
  lemma CountExtremes(classes: seq<Class>, c: Class)
    ensures CountOf(classes, c) == 0 <==> c !in classes
    ensures CountOf(classes, c) == |classes| <==> AllOf(classes, c)
  {
    CountIsZero(classes, c);
    CountIsFull(classes, c);
  }

  // ---------- the activity fold of _inspect_pull_request ----------

  /** One review or comment. `usable` means a non-blank body, a timestamp and a login. */
  datatype Activity = Activity(
    usable: bool, login: string, isBot: bool, time: int, changesRequested: bool, asksSomething: bool, onGitHub: bool)

  predicate IsResponse(author: string, a: Activity) { a.usable && a.login == author }

  predicate IsActionable(author: string, a: Activity) {
    a.usable && a.login != author && !a.isBot && (a.changesRequested || a.asksSomething) && a.onGitHub
  }

  ghost predicate Answered(author: string, items: seq<Activity>, a: Activity) {
    exists r :: r in items && IsResponse(author, r) && r.time > a.time
  }

  ghost predicate AllAnswered(author: string, items: seq<Activity>) {
    forall a :: a in items && IsActionable(author, a) ==> Answered(author, items, a)
  }

  /** A response is pending exactly when the pull request is not merged and some actionable review has no
      strictly later response of the author. */
  method InspectActivity(author: string, merged: bool, items: seq<Activity>) returns (pending: bool)
    ensures pending <==> !merged && !AllAnswered(author, items)
  {
    var actionable: seq<Activity> := [];
    var responses: seq<int> := [];
    for n := 0 to |items|
      invariant forall a :: a in actionable <==> a in items[..n] && IsActionable(author, a)
      invariant forall t :: t in responses <==> exists r :: r in items[..n] && IsResponse(author, r) && r.time == t
    {
      var item := items[n];
      assert items[..n + 1] == items[..n] + [item];
      ghost var before := responses;
      if !item.usable { continue; }
      if item.login == author {
        responses := responses + [item.time];
        forall t ensures t in responses <==> exists r :: r in items[..n + 1] && IsResponse(author, r) && r.time == t {
          assert t in responses <==> t in before || t == item.time;
          if t == item.time { assert item in items[..n + 1] && IsResponse(author, item); }
        }
        continue;
      }
      if item.isBot || !(item.changesRequested || item.asksSomething) { continue; }
      if !item.onGitHub { continue; }
      actionable := actionable + [item];
    }
    assert items[..|items|] == items;
    if actionable == [] { return false; }
    var latest := actionable[0];
    for k := 1 to |actionable|
      invariant latest in actionable && forall j :: 0 <= j < k ==> actionable[j].time <= latest.time
    {
      if actionable[k].time > latest.time { latest := actionable[k]; }
    }
    pending := !merged && !(exists t :: t in responses && t > latest.time);
    LatestDecides(author, items, latest);
    if t :| t in responses && t > latest.time {
      assert Answered(author, items, latest);
    }
    if Answered(author, items, latest) {
      var r :| r in items && IsResponse(author, r) && r.time > latest.time;
      assert r.time in responses;
    }
  }

  /** Only the latest actionable review matters: an answer to it is later than all of them. */
  lemma LatestDecides(author: string, items: seq<Activity>, latest: Activity)
    requires latest in items && IsActionable(author, latest)
    requires forall a :: a in items && IsActionable(author, a) ==> a.time <= latest.time
    ensures AllAnswered(author, items) <==> Answered(author, items, latest)
  {
    if r :| r in items && IsResponse(author, r) && r.time > latest.time {
      forall a | a in items && IsActionable(author, a) ensures Answered(author, items, a) {
        assert r.time > a.time;
      }
    }
  }

  /** What one more activity does to the answers: comments of bots, comments from elsewhere, those that ask for
      nothing, and unusable ones change nothing; a response later than all else answers everything; a review by
      another person without a later response is open. */
  lemma OneMoreActivity(author: string, items: seq<Activity>, a: Activity)
    ensures
      var byAuthor := a.usable && a.login == author;
      var asks := !a.isBot && a.onGitHub && (a.changesRequested || a.asksSomething);
      var asked := a.usable && a.login != author && asks;
      var unanswered := forall x :: x in items && IsResponse(author, x) ==> x.time <= a.time;
      && (!byAuthor && !asked ==> (AllAnswered(author, items + [a]) <==> AllAnswered(author, items)))
      && (byAuthor && (forall x :: x in items ==> x.time < a.time) ==> AllAnswered(author, items + [a]))
      && (asked && unanswered ==> !AllAnswered(author, items + [a]))
  {
    var more := items + [a];
    assert forall x :: x in more <==> x in items || x == a;
    if !IsActionable(author, a) && !IsResponse(author, a) {
      forall x ensures Answered(author, more, x) <==> Answered(author, items, x) {
      }
    }
    if IsResponse(author, a) && forall x :: x in items ==> x.time < a.time {
      forall x | x in more && IsActionable(author, x) ensures Answered(author, more, x) {
        assert a in more && x in items;
      }
    }
  }

  // ---------- evaluate_readiness ----------

  datatype PrState = Open | Closed

  datatype PullRequest = PullRequest(
    state: Option<PrState>, merged: Option<bool>, mergeable: Option<bool>, responsePending: Option<bool>,
    checks: Option<Checks>)

  datatype Remote = Remote(
    errors: nat, atExpectedCommit: bool, tag: Option<bool>, repository: Option<bool>,
    listed: map<string, Option<bool>>, prs: map<string, PullRequest>)

  datatype Status = BLOCKED | LOCAL_READY | READY_TO_TAG | RELEASED | REVIEW_REQUIRED | IN_PROGRESS

  datatype Action =
    | RepairCandidate | RunOnline | ResolveInspection | TagAndBloom | ProceedWithGate
    | ReplaceClosed(distro: string) | ResolveConflict(distro: string) | AnswerReview(distro: string)
    | RepairChecks(distro: string) | AwaitChecks(distro: string) | ObtainChecks(distro: string)
    | AwaitMergeability(distro: string)
    | CreateTag | CreateRepository | WaitForMerge(distro: string) | BloomRelease(distro: string)

  /** The report names every distribution, and an open pull request comes with its check runs. */
  predicate Complete(distros: seq<string>, r: Remote) {
    forall d :: d in distros ==>
      d in r.listed && d in r.prs && (r.prs[d].state == Some(Open) ==> r.prs[d].checks.Some?)
  }

  predicate Listed(r: Remote, d: string) requires d in r.listed { r.listed[d] == Some(true) }

  /** The fields and counts required of a pull request that is still needed. */
  predicate Inspected(pr: PullRequest) {
    && pr.state.Some? && pr.merged.Some? && pr.responsePending.Some?
    && pr.checks.Some? && pr.checks.value.inspected && pr.checks.value.runs.Some?
    && pr.checks.value.total == |pr.checks.value.runs.value|
    && pr.checks.value.total == pr.checks.value.passing + pr.checks.value.pending + pr.checks.value.failing
  }

  predicate PrsRequired(distros: seq<string>, r: Remote)
    requires Complete(distros, r)
  {
    r.tag == Some(true) && r.repository == Some(true) && exists d :: d in distros && !Listed(r, d)
  }

  predicate RemoteFailed(distros: seq<string>, r: Remote)
    requires Complete(distros, r)
  {
    || r.errors > 0 || !r.atExpectedCommit
    || r.tag == None || r.repository == None || (exists d :: d in distros && r.listed[d] == None)
    || (PrsRequired(distros, r) && exists d :: d in distros && !Listed(r, d) && !Inspected(r.prs[d]))
  }

  // What can be wrong with a needed pull request.
  predicate ClosedUnmerged(pr: PullRequest) { pr.state == Some(Closed) && pr.merged == Some(false) }
  predicate Unmergeable(pr: PullRequest) { pr.state == Some(Open) && pr.mergeable == Some(false) }
  predicate MergeabilityOpen(pr: PullRequest) { pr.state == Some(Open) && pr.mergeable == None }
  predicate ReviewPending(pr: PullRequest) { pr.responsePending == Some(true) }
  predicate FailingChecks(pr: PullRequest)
    requires pr.state == Some(Open) ==> pr.checks.Some?
  {
    pr.state == Some(Open) && pr.checks.value.failing > 0
  }
  predicate PendingChecks(pr: PullRequest)
    requires pr.state == Some(Open) ==> pr.checks.Some?
  {
    pr.state == Some(Open) && pr.checks.value.pending > 0
  }
  predicate MissingChecks(pr: PullRequest)
    requires pr.state == Some(Open) ==> pr.checks.Some?
  {
    pr.state == Some(Open) && pr.checks.value.total == 0
  }

  predicate AnyArtifact(distros: seq<string>, r: Remote, value: bool)
    requires Complete(distros, r)
  {
    r.tag == Some(value) || r.repository == Some(value) || exists d :: d in distros && r.listed[d] == Some(value)
  }

  predicate Any(distros: seq<string>, r: Remote, wrong: PullRequest --> bool)
    requires Complete(distros, r)
    requires forall d :: d in distros ==> wrong.requires(r.prs[d])
  {
    exists d :: d in distros && !Listed(r, d) && wrong(r.prs[d])
  }

  /** The branch taken, in the order the conditions are tried. */
  datatype Branch = NotLocal | Offline | Failed | Nothing | Everything | ClosedPr | Conflict | ChecksOpen | ReviewOpen
                  | MergeOpen | InProgress

  function BranchOf(localReady: bool, offline: bool, distros: seq<string>, r: Remote): Branch
    requires Complete(distros, r)
  {
    if !localReady then NotLocal
    else if offline then Offline
    else if RemoteFailed(distros, r) then Failed
    else if !AnyArtifact(distros, r, true) then Nothing
    else if !AnyArtifact(distros, r, false) then Everything
    else if Any(distros, r, ClosedUnmerged) then ClosedPr
    else if Any(distros, r, Unmergeable) then Conflict
    else if Any(distros, r, FailingChecks) || Any(distros, r, PendingChecks) || Any(distros, r, MissingChecks) then ChecksOpen
    else if Any(distros, r, ReviewPending) then ReviewOpen
    else if Any(distros, r, MergeabilityOpen) then MergeOpen
    else InProgress
  }

  function StatusOf(b: Branch): Status {
    match b
    case Offline => LOCAL_READY
    case Nothing => READY_TO_TAG
    case Everything => RELEASED
    case ReviewOpen => REVIEW_REQUIRED
    case InProgress => IN_PROGRESS
    case _ => BLOCKED
  }

  /** The loops over the distributions that append actions, and the branches they belong to. */
  datatype Loop = Closings | Conflicts | CheckRuns | Answers | Mergeability | Waits

  function LoopsOf(b: Branch): seq<Loop> {
    match b
    case ClosedPr => [Closings]
    case Conflict => [Conflicts, Answers]
    case ChecksOpen => [CheckRuns, Answers]
    case ReviewOpen => [Answers]
    case MergeOpen => [Mergeability]
    case InProgress => [Waits]
    case _ => []
  }

  /** What a loop appends for one unlisted distribution. */
  function Due(loop: Loop, r: Remote, d: string): seq<Action>
    requires d in r.prs && (r.prs[d].state == Some(Open) ==> r.prs[d].checks.Some?)
  {
    var pr := r.prs[d];
    match loop
    case Closings => if ClosedUnmerged(pr) then [ReplaceClosed(d)] else []
    case Conflicts => if Unmergeable(pr) then [ResolveConflict(d)] else []
    case CheckRuns =>
      (if pr.state == Some(Open) && pr.checks.value.failing != 0 then [RepairChecks(d)] else []) +
      (if pr.state == Some(Open) && pr.checks.value.pending != 0 then [AwaitChecks(d)] else []) +
      (if MissingChecks(pr) then [ObtainChecks(d)] else [])
    case Answers => if ReviewPending(pr) then [AnswerReview(d)] else []
    case Mergeability => if MergeabilityOpen(pr) then [AwaitMergeability(d)] else []
    case Waits => if r.tag == Some(true) && r.repository == Some(true) then [WaitForMerge(d)] else [BloomRelease(d)]
  }

  /** The actions of a branch that name no distribution. */
  function General(b: Branch, r: Remote): seq<Action> {
    match b
    case NotLocal => [RepairCandidate]
    case Offline => [RunOnline]
    case Failed => [ResolveInspection]
    case Nothing => [TagAndBloom]
    case Everything => [ProceedWithGate]
    case InProgress => (if r.tag == Some(true) then [] else [CreateTag]) +
                       (if r.repository == Some(true) then [] else [CreateRepository])
    case _ => []
  }

  /** What one loop appends, distribution by distribution. */
  function LoopActions(loop: Loop, distros: seq<string>, r: Remote): seq<Action>
    requires Complete(distros, r)
  {
    if distros == [] then []
    else
      var last := distros[|distros| - 1];
      LoopActions(loop, distros[..|distros| - 1], r) + if Listed(r, last) then [] else Due(loop, r, last)
  }

  function AllLoopActions(loops: seq<Loop>, distros: seq<string>, r: Remote): seq<Action>
    requires Complete(distros, r)
  {
    if loops == [] then []
    else AllLoopActions(loops[..|loops| - 1], distros, r) + LoopActions(loops[|loops| - 1], distros, r)
  }

  /** The actions of a branch, in order. */
  function ActionsOf(b: Branch, distros: seq<string>, r: Remote): seq<Action>
    requires Complete(distros, r)
  {
    General(b, r) + AllLoopActions(LoopsOf(b), distros, r)
  }

  /** One loop over the distributions. */
  method Collect(loop: Loop, distros: seq<string>, r: Remote) returns (actions: seq<Action>)
    requires Complete(distros, r)
    ensures actions == LoopActions(loop, distros, r)
  {
    actions := [];
    for n := 0 to |distros|
      invariant Complete(distros[..n], r)
      invariant actions == LoopActions(loop, distros[..n], r)
    {
      assert distros[..n + 1][..n] == distros[..n] && distros[..n + 1][n] == distros[n];
      if !Listed(r, distros[n]) {
        actions := actions + Due(loop, r, distros[n]);
      }
      assert LoopActions(loop, distros[..n], r) + [] == LoopActions(loop, distros[..n], r);
    }
    assert distros[..|distros|] == distros;
  }

  method CollectAll(loops: seq<Loop>, distros: seq<string>, r: Remote) returns (actions: seq<Action>)
    requires Complete(distros, r)
    ensures actions == AllLoopActions(loops, distros, r)
  {
    actions := [];
    for n := 0 to |loops|
      invariant actions == AllLoopActions(loops[..n], distros, r)
    {
      assert loops[..n + 1][..n] == loops[..n] && loops[..n + 1][n] == loops[n];
      var one := Collect(loops[n], distros, r);
      actions := actions + one;
    }
    assert loops[..|loops|] == loops;
  }

  /** The chain of conditions with the actions of each branch: the status and the list of actions, in order. */
  method EvaluateReadiness(localReady: bool, offline: bool, distros: seq<string>, r: Remote)
      returns (status: Status, actions: seq<Action>)
    requires Complete(distros, r)
    ensures var b := BranchOf(localReady, offline, distros, r);
      status == StatusOf(b) && actions == ActionsOf(b, distros, r)
  {
    ghost var b := BranchOf(localReady, offline, distros, r);
    var loops: seq<Loop> := [];
    actions := [];
    status := BLOCKED;
    if !localReady {
      actions := [RepairCandidate];
    } else if offline {
      status, actions := LOCAL_READY, [RunOnline];
    } else if RemoteFailed(distros, r) {
      actions := [ResolveInspection];
    } else if !AnyArtifact(distros, r, true) {
      status, actions := READY_TO_TAG, [TagAndBloom];
    } else if !AnyArtifact(distros, r, false) {
      status, actions := RELEASED, [ProceedWithGate];
    } else if Any(distros, r, ClosedUnmerged) {
      loops := [Closings];
    } else if Any(distros, r, Unmergeable) {
      loops := [Conflicts, Answers];
    } else if Any(distros, r, FailingChecks) || Any(distros, r, PendingChecks) || Any(distros, r, MissingChecks) {
      loops := [CheckRuns, Answers];
    } else if Any(distros, r, ReviewPending) {
      status, loops := REVIEW_REQUIRED, [Answers];
    } else if Any(distros, r, MergeabilityOpen) {
      loops := [Mergeability];
    } else {
      status, loops := IN_PROGRESS, [Waits];
      if r.tag != Some(true) { actions := actions + [CreateTag]; }
      if r.repository != Some(true) { actions := actions + [CreateRepository]; }
    }
    assert status == StatusOf(b) && loops == LoopsOf(b) && actions == General(b, r);
    var collected := CollectAll(loops, distros, r);
    actions := actions + collected;
  }

  /** The loop has this action for an unlisted distribution. */
  predicate DueFrom(loop: Loop, distros: seq<string>, r: Remote, a: Action)
    requires Complete(distros, r)
  {
    exists d :: d in distros && !Listed(r, d) && a in Due(loop, r, d)
  }

  lemma {:induction false} LoopActionsAre(loop: Loop, distros: seq<string>, r: Remote, a: Action)
    requires Complete(distros, r)
    ensures a in LoopActions(loop, distros, r) <==> DueFrom(loop, distros, r, a)
  {
    if distros != [] {
      LastOrBefore(distros);
      LoopActionsAre(loop, distros[..|distros| - 1], r, a);
    }
  }

  /** The actions that name a distribution are exactly those due for an unlisted one in some loop. */
  lemma {:induction false} AllLoopActionsAre(loops: seq<Loop>, distros: seq<string>, r: Remote, a: Action)
    requires Complete(distros, r)
    ensures a in AllLoopActions(loops, distros, r) <==> exists loop :: loop in loops && DueFrom(loop, distros, r, a)
  {
    if loops != [] {
      LoopActionsAre(loops[|loops| - 1], distros, r, a);
      AllLoopActionsAre(loops[..|loops| - 1], distros, r, a);
      LastOrBefore(loops);
    }
  }

  // ---------- what the statuses mean ----------

  /** Nothing is left to do on a pull request but to merge it. */
  predicate OnlyMergeLeft(pr: PullRequest) {
    && Inspected(pr)
    && pr.responsePending == Some(false)
    && (pr.state == Some(Closed) ==> pr.merged == Some(true))
    && (pr.state == Some(Open) ==>
          && pr.mergeable == Some(true)
          && pr.checks.value.failing <= 0 && pr.checks.value.pending <= 0 && pr.checks.value.total > 0)
  }

  /** With tag and release repository in place, the status is IN_PROGRESS exactly when the inspection is
      complete and clean, some distribution is unlisted, and every unlisted one only waits for a merge. */
  lemma InProgressExactly(distros: seq<string>, r: Remote)
    requires Complete(distros, r) && r.tag == Some(true) && r.repository == Some(true)
    ensures BranchOf(true, false, distros, r) == InProgress <==>
      && r.errors == 0 && r.atExpectedCommit && (forall d :: d in distros ==> r.listed[d].Some?)
      && (exists d :: d in distros && !Listed(r, d))
      && (forall d :: d in distros && !Listed(r, d) ==> OnlyMergeLeft(r.prs[d]))
  {
    if !RemoteFailed(distros, r) {
      forall d | d in distros && !Listed(r, d)
        ensures r.listed[d] == Some(false) && (OnlyMergeLeft(r.prs[d]) <==> NothingWrong(r.prs[d]))
      {
        ThreeValues(r.listed[d]);
        assert PrsRequired(distros, r);
        InspectedPrs(r.prs[d]);
      }
    }
  }

  /** Nothing is left to do on a pull request but to answer reviews, to learn that it can be merged, and to merge it. */
  predicate NoRepairLeft(pr: PullRequest) {
    && Inspected(pr)
    && (pr.state == Some(Closed) ==> pr.merged == Some(true))
    && (pr.state == Some(Open) ==>
          && pr.mergeable != Some(false)
          && pr.checks.value.failing <= 0 && pr.checks.value.pending <= 0 && pr.checks.value.total > 0)
  }

  /** With tag and release repository in place, the status is REVIEW_REQUIRED exactly when the inspection is
      complete and clean, no unlisted pull request needs repair, and one of them awaits a response. */
  lemma ReviewRequiredExactly(distros: seq<string>, r: Remote)
    requires Complete(distros, r) && r.tag == Some(true) && r.repository == Some(true)
    ensures StatusOf(BranchOf(true, false, distros, r)) == REVIEW_REQUIRED <==>
      && r.errors == 0 && r.atExpectedCommit && (forall d :: d in distros ==> r.listed[d].Some?)
      && (forall d :: d in distros && !Listed(r, d) ==> NoRepairLeft(r.prs[d]))
      && (exists d :: d in distros && !Listed(r, d) && ReviewPending(r.prs[d]))
  {
    if !RemoteFailed(distros, r) {
      forall d | d in distros && !Listed(r, d)
        ensures r.listed[d] == Some(false) && (NoRepairLeft(r.prs[d]) <==> NothingToRepair(r.prs[d]))
      {
        ThreeValues(r.listed[d]);
        assert PrsRequired(distros, r);
        ThreeValues(r.prs[d].merged);
      }
    }
  }

  predicate NothingToRepair(pr: PullRequest)
    requires pr.state == Some(Open) ==> pr.checks.Some?
  {
    !(ClosedUnmerged(pr) || Unmergeable(pr) || FailingChecks(pr) || PendingChecks(pr) || MissingChecks(pr))
  }

  /** RELEASED needs the tag, the release repository and every distribution, in a clean inspection at the
      expected commit; READY_TO_TAG needs the same inspection to find none of them. */
  lemma ArtifactsDecide(localReady: bool, offline: bool, distros: seq<string>, r: Remote)
    requires Complete(distros, r)
    ensures StatusOf(BranchOf(localReady, offline, distros, r)) == RELEASED <==>
      && localReady && !offline && r.errors == 0 && r.atExpectedCommit
      && r.tag == Some(true) && r.repository == Some(true) && forall d :: d in distros ==> r.listed[d] == Some(true)
    ensures StatusOf(BranchOf(localReady, offline, distros, r)) == READY_TO_TAG <==>
      && localReady && !offline && r.errors == 0 && r.atExpectedCommit
      && r.tag == Some(false) && r.repository == Some(false) && forall d :: d in distros ==> r.listed[d] == Some(false)
  {
    ThreeValues(r.tag);
    ThreeValues(r.repository);
    forall d | d in distros ensures r.listed[d] == None || r.listed[d] == Some(true) || r.listed[d] == Some(false) {
      ThreeValues(r.listed[d]);
    }
  }

  predicate NothingWrong(pr: PullRequest)
    requires pr.state == Some(Open) ==> pr.checks.Some?
  {
    NothingToRepair(pr) && !ReviewPending(pr) && !MergeabilityOpen(pr)
  }

  lemma InspectedPrs(pr: PullRequest)
    requires Inspected(pr)
    ensures OnlyMergeLeft(pr) <==> NothingWrong(pr)
  {
    ThreeValues(pr.merged);
    ThreeValues(pr.mergeable);
    ThreeValues(pr.responsePending);
  }

  lemma ThreeValues(o: Option<bool>)
    ensures o == None || o == Some(true) || o == Some(false)
  {
    match o
    case None =>
    case Some(b) => assert b == true || b == false;
  }

  /** The advice to wait is given for exactly the unlisted distributions of an IN_PROGRESS report whose tag
      and release repository exist. */
  lemma WaitAdvice(localReady: bool, offline: bool, distros: seq<string>, r: Remote, d: string)
    requires Complete(distros, r)
    ensures var b := BranchOf(localReady, offline, distros, r);
      WaitForMerge(d) in ActionsOf(b, distros, r) <==>
      b == InProgress && r.tag == Some(true) && r.repository == Some(true) && d in distros && !Listed(r, d)
  {
    var b := BranchOf(localReady, offline, distros, r);
    AllLoopActionsAre(LoopsOf(b), distros, r, WaitForMerge(d));
    WaitsAreDue(distros, r, d);
    OnlyWaitsAdviseWaiting(b, distros, r, d);
  }

  lemma OnlyWaitsAdviseWaiting(b: Branch, distros: seq<string>, r: Remote, d: string)
    requires Complete(distros, r)
    ensures forall loop :: DueFrom(loop, distros, r, WaitForMerge(d)) ==> loop == Waits
    ensures Waits in LoopsOf(b) <==> b == InProgress
    ensures WaitForMerge(d) !in General(b, r)
  {
  }

  lemma WaitsAreDue(distros: seq<string>, r: Remote, d: string)
    requires Complete(distros, r)
    ensures DueFrom(Waits, distros, r, WaitForMerge(d)) <==>
      r.tag == Some(true) && r.repository == Some(true) && d in distros && !Listed(r, d)
  {
  }

  /** What `_inspect_pull_request` reports, from what it was given. */
  ghost predicate ReportedFrom(
      pr: PullRequest, state: PrState, merged: bool, mergeable: Option<bool>,
      author: string, activity: seq<Activity>, runs: seq<CheckRun>)
  {
    && pr.state == Some(state) && pr.merged == Some(merged) && pr.mergeable == mergeable
    && pr.responsePending == Some(!merged && !AllAnswered(author, activity))
    && pr.checks.Some?
    && var c := pr.checks.value;
      && c.inspected && c.total == |runs| && c.runs.Some? && |c.runs.value| == |runs|
      && (forall i :: 0 <= i < |runs| ==> runs[i].CheckRun? && c.runs.value[i] == ClassOf(runs[i]))
      && c.passing == CountOf(c.runs.value, PASSING)
      && c.pending == CountOf(c.runs.value, PENDING)
      && c.failing == CountOf(c.runs.value, FAILING)
  }

  /** The counts an inspection reports always pass the consistency test applied to them. */
  lemma ReportsAreConsistent(
      pr: PullRequest, state: PrState, merged: bool, mergeable: Option<bool>,
      author: string, activity: seq<Activity>, runs: seq<CheckRun>)
    requires ReportedFrom(pr, state, merged, mergeable, author, activity, runs)
    ensures Inspected(pr)
  {
    CountsPartition(pr.checks.value.runs.value);
  }

  /** Wait-only is never claimed early: when the advice is to wait for a pull request, it is merged, or it
      is open, mergeable and has at least one check run, all completed with a passing conclusion; and,
      unless merged, every actionable review has a strictly later response of the author. */
  lemma WaitOnlyIsNeverEarly(
      localReady: bool, offline: bool, distros: seq<string>, r: Remote, d: string,
      state: PrState, merged: bool, mergeable: Option<bool>,
      author: string, activity: seq<Activity>, runs: seq<CheckRun>)
    requires Complete(distros, r) && d in distros
    requires ReportedFrom(r.prs[d], state, merged, mergeable, author, activity, runs)
    requires WaitForMerge(d) in ActionsOf(BranchOf(localReady, offline, distros, r), distros, r)
    ensures merged || (state == Open && mergeable == Some(true))
    ensures state == Open ==>
      runs != [] && forall run :: run in runs ==> run.CheckRun? && run.status == "completed" && PassingConclusion(run.conclusion)
    ensures merged || AllAnswered(author, activity)
  {
    WaitAdvice(localReady, offline, distros, r, d);
    InProgressExactly(distros, r);
    var classes := r.prs[d].checks.value.runs.value;
    CountsPartition(classes);
    CountExtremes(classes, PASSING);
    assert OnlyMergeLeft(r.prs[d]);
    if state == Open {
      forall run | run in runs
        ensures run.CheckRun? && run.status == "completed" && PassingConclusion(run.conclusion)
      {
        var i :| 0 <= i < |runs| && runs[i] == run;
        assert classes[i] in classes;
      }
    }
  }

  /** For a merged request nothing is said of reviews: its response counts as given, so waiting is advised
      although an actionable review has no answer. */
  lemma MergedMayBeUnanswered(r: Remote, pr: PullRequest, activity: seq<Activity>)
    requires activity == [Activity(true, "maintainer", false, 0, true, false, true)]
    requires ReportedFrom(pr, Closed, true, None, "author", activity, [])
    requires r == Remote(0, true, Some(true), Some(true), map["humble" := Some(false)], map["humble" := pr])
    ensures !AllAnswered("author", activity)
    ensures Complete(["humble"], r)
      && WaitForMerge("humble") in ActionsOf(BranchOf(true, false, ["humble"], r), ["humble"], r)
  {
    ReportsAreConsistent(pr, Closed, true, None, "author", activity, []);
    InProgressExactly(["humble"], r);
    WaitAdvice(true, false, ["humble"], r, "humble");
    assert activity[0] in activity && IsActionable("author", activity[0]);
    assert "humble" in ["humble"] && OnlyMergeLeft(pr);
  }
}
