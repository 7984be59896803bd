/** Routing review slices into lanes (`build_report` in scripts/check_product_draft_review_routing.py),
    for any numbers of slices and lanes.

    The contract schema fixes the number of lanes to that of the expected identities; the code relies on
    this, since it pairs the two lists with `zip`, and so does the model. */
module ReviewRouting {
  import opened Sequences
  import opened Options

  datatype Slice = Slice(id: string, order: int, pathCount: int, verificationCount: int, dependsOn: seq<string>)

  datatype Lane = Lane(
    id: string, order: int, sliceIds: seq<string>, dependsOnLanes: seq<string>,
    expectedPathCount: int, expectedVerificationCount: int)

  datatype Normalized = Normalized(
    id: string, order: int, sliceIds: seq<string>, dependsOnLanes: seq<string>, pathCount: int, verificationCount: int)

  datatype Error = BadSlice(id: string) | NotAPartition | LaneIdentity(id: string) | LaneDependencies(id: string)
                 | LaneBudget(id: string) | Totals
  datatype Result = Report(lanes: seq<Normalized>, totalPaths: int, totalVerifications: int) | Rejected(error: Error)

  // ---------- slices ----------

  predicate GoodSlice(s: Slice, order: int, expectedId: string, sliceIds: seq<string>) {
    && s.id == expectedId && s.order == order && s.pathCount > 0 && s.verificationCount > 0
    && (forall d :: d in s.dependsOn ==> d in sliceIds)
    && NeverTwice(s.dependsOn)
  }

  predicate GoodSlices(slices: seq<Slice>, sliceIds: seq<string>) {
    |slices| == |sliceIds| && forall i :: 0 <= i < |slices| ==> GoodSlice(slices[i], i + 1, sliceIds[i], sliceIds)
  }

  /** The dictionary of slices by identity. */
  function SliceMap(slices: seq<Slice>): map<string, Slice> {
    if slices == [] then map[] else SliceMap(slices[..|slices| - 1])[slices[|slices| - 1].id := slices[|slices| - 1]]
  }

  lemma {:induction false} SliceMapHolds(slices: seq<Slice>, sliceIds: seq<string>)
    requires |slices| == |sliceIds| && NeverTwice(sliceIds) && forall i :: 0 <= i < |slices| ==> slices[i].id == sliceIds[i]
    ensures forall id :: id in SliceMap(slices) <==> id in sliceIds
    ensures forall i :: 0 <= i < |slices| ==> SliceMap(slices)[sliceIds[i]] == slices[i]
  {
    if slices != [] {
      var n := |slices| - 1;
      SliceMapHolds(slices[..n], sliceIds[..n]);
      assert sliceIds == sliceIds[..n] + [sliceIds[n]];
    }
  }

  // ---------- lanes ----------

  /** All slice identities in lane order. */
  function Assigned(lanes: seq<Lane>): seq<string> {
    if lanes == [] then [] else Assigned(lanes[..|lanes| - 1]) + lanes[|lanes| - 1].sliceIds
  }

  /** Missing, duplicate and extra identities are all absent: each slice is assigned exactly once. */
  predicate AssignsEachOnce(lanes: seq<Lane>, sliceIds: seq<string>) {
    && (forall id :: id in sliceIds ==> id in Assigned(lanes))
    && NeverTwice(Assigned(lanes))
    && (forall id :: id in Assigned(lanes) ==> id in sliceIds)
  }

  /** Position of the lane a slice went to; the dictionary keeps the last one. */
  function LaneOf(lanes: seq<Lane>, id: string): int {
    if lanes == [] then -1
    else if id in lanes[|lanes| - 1].sliceIds then |lanes| - 1
    else LaneOf(lanes[..|lanes| - 1], id)
  }

  lemma {:induction false} AssignedAre(lanes: seq<Lane>, id: string)
    ensures id in Assigned(lanes) <==> exists k :: 0 <= k < |lanes| && id in lanes[k].sliceIds
    ensures -1 <= LaneOf(lanes, id) < |lanes|
    ensures id in Assigned(lanes) ==> LaneOf(lanes, id) >= 0 && id in lanes[LaneOf(lanes, id)].sliceIds
  {
    if lanes != [] {
      var n := |lanes| - 1;
      AssignedAre(lanes[..n], id);
      assert forall k :: 0 <= k < n ==> lanes[..n][k] == lanes[k];
    }
  }

  /** Each slice lies in one lane only, once. */
  lemma {:induction false} OneLaneEach(lanes: seq<Lane>, id: string, j: nat, k: nat)
    requires NeverTwice(Assigned(lanes)) && j < |lanes| && k < |lanes|
    requires id in lanes[j].sliceIds && id in lanes[k].sliceIds
    ensures j == k
    decreases |lanes|
  {
    var n := |lanes| - 1;
    var before := Assigned(lanes[..n]);
    assert Assigned(lanes) == before + lanes[n].sliceIds;
    if j < n && k < n {
      DistinctPrefix(before, lanes[n].sliceIds);
      OneLaneEach(lanes[..n], id, j, k);
    } else if j != k {
      var other := if j == n then k else j;
      AssignedAre(lanes[..n], id);
      assert lanes[..n][other] == lanes[other];
      Overlap(before, lanes[n].sliceIds, id);
    }
  }

  lemma DistinctPrefix(a: seq<string>, b: seq<string>)
    requires NeverTwice(a + b)
    ensures NeverTwice(a) && NeverTwice(b)
  {
    assert forall i :: 0 <= i < |a| ==> (a + b)[i] == a[i];
    assert forall i :: 0 <= i < |b| ==> (a + b)[|a| + i] == b[i];
  }

  lemma Overlap(a: seq<string>, b: seq<string>, id: string)
    requires id in a && id in b
    ensures !NeverTwice(a + b)
  {
    var i :| 0 <= i < |a| && a[i] == id;
    var j :| 0 <= j < |b| && b[j] == id;
    assert (a + b)[i] == (a + b)[|a| + j];
  }

  // ---------- sums over slices ----------

  function Sum(weight: map<string, int>, ids: seq<string>): int
    requires forall id :: id in ids ==> id in weight
  {
    if ids == [] then 0 else Sum(weight, ids[..|ids| - 1]) + weight[ids[|ids| - 1]]
  }

  function Paths(m: map<string, Slice>): map<string, int> { map id | id in m :: m[id].pathCount }
  function Verifications(m: map<string, Slice>): map<string, int> { map id | id in m :: m[id].verificationCount }

  lemma {:induction false} SumAppend(weight: map<string, int>, a: seq<string>, b: seq<string>)
    requires forall id :: id in a + b ==> id in weight
    ensures (forall id :: id in a ==> id in weight) && (forall id :: id in b ==> id in weight)
    ensures Sum(weight, a + b) == Sum(weight, a) + Sum(weight, b)
  {
    assert forall id :: id in a || id in b ==> id in a + b;
    if b == [] {
      assert a + b == a;
    } else {
      var n := |b| - 1;
      assert (a + b)[..|a + b| - 1] == a + b[..n];
      assert forall id :: id in a + b[..n] ==> id in a + b;
      SumAppend(weight, a, b[..n]);
    }
  }

  /** Lists with the same identities, each once, have the same sum. */
  lemma {:induction false} SumOfPermutation(weight: map<string, int>, a: seq<string>, b: seq<string>)
    requires NeverTwice(a) && NeverTwice(b) && (forall id :: id in a <==> id in b) && forall id :: id in a ==> id in weight
    ensures Sum(weight, a) == Sum(weight, b)
    decreases |a|
  {
    assert |b| > 0 ==> b[0] in b;
    if a != [] {
      var n, x := |a| - 1, a[|a| - 1];
      assert a == a[..n] + [x] && x in a;
      var k :| 0 <= k < |b| && b[k] == x;
      SumWithout(weight, b, k);
      RemovedOne(a, b, n, k);
      SumOfPermutation(weight, a[..n], b[..k] + b[k + 1..]);
    }
  }

  lemma SumWithout(weight: map<string, int>, b: seq<string>, k: nat)
    requires k < |b| && forall id :: id in b ==> id in weight
    ensures forall id :: id in b[..k] + b[k + 1..] ==> id in weight
    ensures Sum(weight, b) == weight[b[k]] + Sum(weight, b[..k] + b[k + 1..])
  {
    var left, right := b[..k + 1], b[k + 1..];
    assert b == left + right && left[..k] == b[..k];
    SumAppend(weight, left, right);
    assert forall id :: id in b[..k] + right ==> id in b;
    SumAppend(weight, b[..k], right);
  }

  lemma RemovedOne(a: seq<string>, b: seq<string>, n: nat, k: nat)
    requires NeverTwice(a) && NeverTwice(b) && (forall id :: id in a <==> id in b)
    requires n == |a| - 1 && k < |b| && b[k] == a[n]
    ensures NeverTwice(a[..n]) && NeverTwice(b[..k] + b[k + 1..])
    ensures forall id :: id in a[..n] <==> id in b[..k] + b[k + 1..]
  {
    var rest := b[..k] + b[k + 1..];
    assert forall i :: 0 <= i < |rest| ==> rest[i] == b[if i < k then i else i + 1];
    forall id ensures id in a[..n] <==> id in rest {
      if id in a[..n] {
        var i :| 0 <= i < n && a[i] == id;
        assert a[i] in b;
        var j :| 0 <= j < |b| && b[j] == id;
        assert rest[if j < k then j else j - 1] == id;
      }
      if id in rest {
        var j :| 0 <= j < |rest| && rest[j] == id;
        var j' := if j < k then j else j + 1;
        assert b[j'] in a && b[j'] != b[k];
        var i :| 0 <= i < |a| && a[i] == id;
        assert a[..n][i] == id;
      }
    }
  }

  // ---------- the lane checks ----------

  /** `slice_to_lane`. */
  function LaneIdOf(lanes: seq<Lane>, id: string): string {
    var k := LaneOf(lanes, id);
    if 0 <= k < |lanes| then lanes[k].id else ""
  }

  /** `lane_order`: the last lane of an identity decides. */
  function OrderOf(lanes: seq<Lane>, laneId: string): int {
    if lanes == [] then 0
    else if lanes[|lanes| - 1].id == laneId then lanes[|lanes| - 1].order
    else OrderOf(lanes[..|lanes| - 1], laneId)
  }

  /** Some slice of the lane depends on a slice of the lane called `other`. */
  predicate Requires(lanes: seq<Lane>, m: map<string, Slice>, lane: Lane, other: string) {
    exists id, d :: id in lane.sliceIds && id in m && d in m[id].dependsOn && LaneIdOf(lanes, d) == other && other != lane.id
  }

  /** The listed dependencies are the required ones, each once, by ascending order, all before the lane. */
  ghost predicate DependenciesExact(lanes: seq<Lane>, m: map<string, Slice>, lane: Lane, order: int) {
    && NeverTwice(lane.dependsOnLanes)
    && (forall other :: other in lane.dependsOnLanes <==> Requires(lanes, m, lane, other))
    && (forall i, j :: 0 <= i < j < |lane.dependsOnLanes| ==>
          OrderOf(lanes, lane.dependsOnLanes[i]) <= OrderOf(lanes, lane.dependsOnLanes[j]))
    && (forall other :: other in lane.dependsOnLanes ==> OrderOf(lanes, other) < order)
  }

  ghost predicate LaneAccepted(lanes: seq<Lane>, m: map<string, Slice>, k: nat, laneIds: seq<string>)
    requires k < |lanes| == |laneIds| && forall id :: id in lanes[k].sliceIds ==> id in m
  {
    var lane := lanes[k];
    && lane.id == laneIds[k] && lane.order == k + 1
    && DependenciesExact(lanes, m, lane, k + 1)
    && Sum(Paths(m), lane.sliceIds) == lane.expectedPathCount
    && Sum(Verifications(m), lane.sliceIds) == lane.expectedVerificationCount
  }

  function Normalize(lane: Lane, paths: int, verifications: int): Normalized {
    Normalized(lane.id, lane.order, lane.sliceIds, lane.dependsOnLanes, paths, verifications)
  }

  /** All conditions under which a contract is accepted. */
  ghost predicate Accepts(
      slices: seq<Slice>, lanes: seq<Lane>, sliceIds: seq<string>, laneIds: seq<string>, followUpPaths: int, sliceCount: int)
  {
    && |lanes| == |laneIds|
    && GoodSlices(slices, sliceIds) && AssignsEachOnce(lanes, sliceIds)
    && LanesKnown(lanes, SliceMap(slices))
    && (forall k :: 0 <= k < |lanes| ==> LaneAccepted(lanes, SliceMap(slices), k, laneIds))
    && TotalPaths(lanes, SliceMap(slices)) == followUpPaths
    && |Assigned(lanes)| == sliceCount
  }

  predicate LanesKnown(lanes: seq<Lane>, m: map<string, Slice>) {
    forall k, id :: 0 <= k < |lanes| && id in lanes[k].sliceIds ==> id in m
  }

  /** The sum of the lane sums. */
  function TotalPaths(lanes: seq<Lane>, m: map<string, Slice>): int
    requires LanesKnown(lanes, m)
  {
    if lanes == [] then 0
    else TotalPaths(lanes[..|lanes| - 1], m) + Sum(Paths(m), lanes[|lanes| - 1].sliceIds)
  }

  function TotalVerifications(lanes: seq<Lane>, m: map<string, Slice>): int
    requires LanesKnown(lanes, m)
  {
    if lanes == [] then 0
    else TotalVerifications(lanes[..|lanes| - 1], m) + Sum(Verifications(m), lanes[|lanes| - 1].sliceIds)
  }

  method DependenciesAreExact(lanes: seq<Lane>, m: map<string, Slice>, lane: Lane, order: int) returns (ok: bool)
    ensures ok <==> DependenciesExact(lanes, m, lane, order)
  {
    var required: set<string> := {};
    for i := 0 to |lane.sliceIds|
      invariant forall o :: o in required <==>
        exists id, d :: id in lane.sliceIds[..i] && id in m && d in m[id].dependsOn && LaneIdOf(lanes, d) == o && o != lane.id
    {
      var id := lane.sliceIds[i];
      assert lane.sliceIds[..i + 1] == lane.sliceIds[..i] + [id];
      if id in m {
        required := required + set d | d in m[id].dependsOn && LaneIdOf(lanes, d) != lane.id :: LaneIdOf(lanes, d);
      }
    }
    assert lane.sliceIds[..|lane.sliceIds|] == lane.sliceIds;
    assert forall o :: o in required <==> Requires(lanes, m, lane, o);
    ok := NeverTwice(lane.dependsOnLanes)
      && (forall o :: o in required ==> o in lane.dependsOnLanes) && (forall o :: o in lane.dependsOnLanes ==> o in required)
      && (forall i, j :: 0 <= i < j < |lane.dependsOnLanes| ==>
            OrderOf(lanes, lane.dependsOnLanes[i]) <= OrderOf(lanes, lane.dependsOnLanes[j]))
      && (forall o :: o in lane.dependsOnLanes ==> OrderOf(lanes, o) < order);
  }

  /** The three checks of one lane. */
  method CheckLane(lanes: seq<Lane>, m: map<string, Slice>, n: nat, laneIds: seq<string>) returns (error: Option<Error>)
    requires n < |lanes| == |laneIds| && forall id :: id in lanes[n].sliceIds ==> id in m
    ensures error.None? <==> LaneAccepted(lanes, m, n, laneIds)
  {
    var lane := lanes[n];
    if lane.id != laneIds[n] || lane.order != n + 1 { return Some(LaneIdentity(laneIds[n])); }
    var exact := DependenciesAreExact(lanes, m, lane, n + 1);
    if !exact { return Some(LaneDependencies(laneIds[n])); }
    if Sum(Paths(m), lane.sliceIds) != lane.expectedPathCount
       || Sum(Verifications(m), lane.sliceIds) != lane.expectedVerificationCount {
      return Some(LaneBudget(laneIds[n]));
    }
    return None;
  }

  method CheckSlices(slices: seq<Slice>, sliceIds: seq<string>) returns (error: Option<Error>)
    ensures error.None? <==> GoodSlices(slices, sliceIds)
  {
    if |slices| != |sliceIds| { return Some(BadSlice("")); }
    for n := 0 to |slices|
      invariant forall i :: 0 <= i < n ==> GoodSlice(slices[i], i + 1, sliceIds[i], sliceIds)
    {
      if !GoodSlice(slices[n], n + 1, sliceIds[n], sliceIds) { return Some(BadSlice(sliceIds[n])); }
    }
    return None;
  }

  lemma TotalsStep(lanes: seq<Lane>, m: map<string, Slice>, n: nat)
    requires n < |lanes| && LanesKnown(lanes, m)
    ensures LanesKnown(lanes[..n], m) && LanesKnown(lanes[..n + 1], m)
    ensures TotalPaths(lanes[..n + 1], m) == TotalPaths(lanes[..n], m) + Sum(Paths(m), lanes[n].sliceIds)
    ensures TotalVerifications(lanes[..n + 1], m) ==
      TotalVerifications(lanes[..n], m) + Sum(Verifications(m), lanes[n].sliceIds)
  {
    assert lanes[..n + 1][..n] == lanes[..n] && lanes[..n + 1][n] == lanes[n];
  }

  ghost predicate AcceptedUpTo(lanes: seq<Lane>, m: map<string, Slice>, n: nat, laneIds: seq<string>)
    requires n <= |lanes| == |laneIds| && LanesKnown(lanes, m)
  {
    forall k :: 0 <= k < n ==> LaneAccepted(lanes, m, k, laneIds)
  }

  lemma AcceptedStep(lanes: seq<Lane>, m: map<string, Slice>, n: nat, laneIds: seq<string>)
    requires n < |lanes| == |laneIds| && LanesKnown(lanes, m)
    ensures AcceptedUpTo(lanes, m, n + 1, laneIds) <==> AcceptedUpTo(lanes, m, n, laneIds) && LaneAccepted(lanes, m, n, laneIds)
    ensures AcceptedUpTo(lanes, m, |lanes|, laneIds) ==> LaneAccepted(lanes, m, n, laneIds)
    ensures LaneAccepted(lanes, m, n, laneIds) ==>
      Sum(Paths(m), lanes[n].sliceIds) == lanes[n].expectedPathCount
      && Sum(Verifications(m), lanes[n].sliceIds) == lanes[n].expectedVerificationCount
  {
  }

  /** The loop over the lanes: the first failed check, or the normalised lanes and their sums. */
  method CheckLanes(lanes: seq<Lane>, m: map<string, Slice>, laneIds: seq<string>)
      returns (error: Option<Error>, normalized: seq<Normalized>, totalPaths: int, totalVerifications: int)
    requires |lanes| == |laneIds| && LanesKnown(lanes, m)
    ensures error.None? <==> AcceptedUpTo(lanes, m, |lanes|, laneIds)
    ensures error.None? ==>
      && |normalized| == |lanes|
      && (forall k :: 0 <= k < |lanes| ==>
            normalized[k] == Normalize(lanes[k], lanes[k].expectedPathCount, lanes[k].expectedVerificationCount))
      && totalPaths == TotalPaths(lanes, m) && totalVerifications == TotalVerifications(lanes, m)
  {
    error, normalized, totalPaths, totalVerifications := None, [], 0, 0;
    for n := 0 to |lanes|
      invariant |normalized| == n && error.None?
      invariant AcceptedUpTo(lanes, m, n, laneIds)
      invariant forall k :: 0 <= k < n ==>
        normalized[k] == Normalize(lanes[k], lanes[k].expectedPathCount, lanes[k].expectedVerificationCount)
      invariant LanesKnown(lanes[..n], m)
      invariant totalPaths == TotalPaths(lanes[..n], m) && totalVerifications == TotalVerifications(lanes[..n], m)
    {
      error := CheckLane(lanes, m, n, laneIds);
      AcceptedStep(lanes, m, n, laneIds);
      if error.Some? { return; }
      TotalsStep(lanes, m, n);
      var pathCount, verificationCount := Sum(Paths(m), lanes[n].sliceIds), Sum(Verifications(m), lanes[n].sliceIds);
      normalized := normalized + [Normalize(lanes[n], pathCount, verificationCount)];
      totalPaths, totalVerifications := totalPaths + pathCount, totalVerifications + verificationCount;
    }
    assert lanes[..|lanes|] == lanes;
  }

  /** A report is built exactly for accepted contracts; it lists every lane with its sums. */
  method BuildReport(
      slices: seq<Slice>, lanes: seq<Lane>, sliceIds: seq<string>, laneIds: seq<string>, followUpPaths: int, sliceCount: int)
      returns (r: Result)
    requires NeverTwice(sliceIds) && |lanes| == |laneIds|
    ensures r.Report? <==> Accepts(slices, lanes, sliceIds, laneIds, followUpPaths, sliceCount)
    ensures r.Report? ==>
      && |r.lanes| == |lanes|
      && (forall k :: 0 <= k < |lanes| ==>
            r.lanes[k] == Normalize(lanes[k], lanes[k].expectedPathCount, lanes[k].expectedVerificationCount))
      && (forall k :: 0 <= k < |lanes| ==>
            && r.lanes[k].id == laneIds[k] && r.lanes[k].order == k + 1
            && r.lanes[k].sliceIds == lanes[k].sliceIds && r.lanes[k].dependsOnLanes == lanes[k].dependsOnLanes
            && r.lanes[k].pathCount == lanes[k].expectedPathCount
            && r.lanes[k].verificationCount == lanes[k].expectedVerificationCount)
      && LanesKnown(lanes, SliceMap(slices))
      && r.totalPaths == TotalPaths(lanes, SliceMap(slices))
      && r.totalVerifications == TotalVerifications(lanes, SliceMap(slices))
  {
    var bad := CheckSlices(slices, sliceIds);
    if bad.Some? { return Rejected(bad.value); }
    var m := SliceMap(slices);
    if !AssignsEachOnce(lanes, sliceIds) { return Rejected(NotAPartition); }
    SliceMapHolds(slices, sliceIds);
    AssignedKnown(lanes, sliceIds, m);
    var error, normalized, totalPaths, totalVerifications := CheckLanes(lanes, m, laneIds);
    if error.Some? { return Rejected(error.value); }
    if totalPaths != followUpPaths || |Assigned(lanes)| != sliceCount { return Rejected(Totals); }
    LaneIdentities(lanes, m, laneIds);
    return Report(normalized, totalPaths, totalVerifications);
  }

  lemma AssignedKnown(lanes: seq<Lane>, sliceIds: seq<string>, m: map<string, Slice>)
    requires AssignsEachOnce(lanes, sliceIds) && forall id :: id in m <==> id in sliceIds
    ensures LanesKnown(lanes, m)
  {
    forall k, id | 0 <= k < |lanes| && id in lanes[k].sliceIds ensures id in m {
      AssignedAre(lanes, id);
    }
  }

  // ---------- what acceptance means ----------

  /** Partition: every expected slice lies in one and only one lane. */
  lemma LanesPartitionSlices(
      slices: seq<Slice>, lanes: seq<Lane>, sliceIds: seq<string>, laneIds: seq<string>, followUpPaths: int, sliceCount: int,
      id: string)
    requires NeverTwice(sliceIds) && Accepts(slices, lanes, sliceIds, laneIds, followUpPaths, sliceCount)
    ensures id in sliceIds <==> exists k :: 0 <= k < |lanes| && id in lanes[k].sliceIds
    ensures forall j, k :: 0 <= j < |lanes| && 0 <= k < |lanes| && id in lanes[j].sliceIds && id in lanes[k].sliceIds ==> j == k
  {
    AssignedAre(lanes, id);
    forall j, k | 0 <= j < |lanes| && 0 <= k < |lanes| && id in lanes[j].sliceIds && id in lanes[k].sliceIds ensures j == k {
      OneLaneEach(lanes, id, j, k);
    }
  }

  lemma {:induction false} OrderOfLane(lanes: seq<Lane>, laneIds: seq<string>, k: nat)
    requires NeverTwice(laneIds) && |lanes| == |laneIds| && k < |lanes|
    requires forall i :: 0 <= i < |lanes| ==> lanes[i].id == laneIds[i] && lanes[i].order == i + 1
    ensures OrderOf(lanes, laneIds[k]) == k + 1
    decreases |lanes|
  {
    var n := |lanes| - 1;
    if k < n {
      assert laneIds[k] != laneIds[n];
      OrderOfLane(lanes[..n], laneIds[..n], k);
    }
  }

  /** Topological: a slice's dependencies lie in its own lane or in an earlier one. */
  lemma DependenciesPointBack(
      slices: seq<Slice>, lanes: seq<Lane>, sliceIds: seq<string>, laneIds: seq<string>, followUpPaths: int, sliceCount: int,
      k: nat, id: string, d: string)
    requires NeverTwice(sliceIds) && NeverTwice(laneIds)
    requires Accepts(slices, lanes, sliceIds, laneIds, followUpPaths, sliceCount)
    requires k < |lanes| && id in lanes[k].sliceIds && id in SliceMap(slices) && d in SliceMap(slices)[id].dependsOn
    ensures exists j :: 0 <= j <= k && d in lanes[j].sliceIds
  {
    var m := SliceMap(slices);
    SliceMapHolds(slices, sliceIds);
    assert id in sliceIds;
    var i :| 0 <= i < |sliceIds| && sliceIds[i] == id;
    assert GoodSlice(slices[i], i + 1, sliceIds[i], sliceIds) && m[id] == slices[i];
    assert d in sliceIds && d in Assigned(lanes);
    AssignedAre(lanes, d);
    var j := LaneOf(lanes, d);
    LaneIdentities(lanes, m, laneIds);
    assert LaneIdOf(lanes, d) == laneIds[j] && lanes[k].id == laneIds[k];
    assert LaneAccepted(lanes, m, k, laneIds);
    if j != k {
      RequiresSlice(lanes, m, lanes[k], id, d);
      OrderOfLane(lanes, laneIds, j);
    }
  }

  /** The listed dependencies of a lane are exactly the other lanes that hold a slice which one of its own slices
      depends on. */
  lemma LaneDependenciesAre(
      slices: seq<Slice>, lanes: seq<Lane>, sliceIds: seq<string>, laneIds: seq<string>, followUpPaths: int, sliceCount: int,
      k: nat, j: nat)
    requires NeverTwice(sliceIds) && NeverTwice(laneIds)
    requires Accepts(slices, lanes, sliceIds, laneIds, followUpPaths, sliceCount) && k < |lanes| && j < |lanes|
    ensures laneIds[j] in lanes[k].dependsOnLanes <==>
      j != k && exists id, d :: DependsOnLane(slices, lanes[k], lanes[j], id, d)
  {
    hide Accepts, LaneAccepted, DependsOnLane;
    var m := SliceMap(slices);
    AcceptedLane(slices, lanes, sliceIds, laneIds, followUpPaths, sliceCount, k);
    AcceptedLane(slices, lanes, sliceIds, laneIds, followUpPaths, sliceCount, j);
    assert lanes[k].id == laneIds[k] && (laneIds[j] == laneIds[k] <==> j == k);
    if Requires(lanes, m, lanes[k], laneIds[j]) {
      var id, d :| id in lanes[k].sliceIds && id in m && d in m[id].dependsOn && LaneIdOf(lanes, d) == laneIds[j];
      OneDependency(slices, lanes, sliceIds, laneIds, followUpPaths, sliceCount, k, j, id, d);
    }
    if id, d :| DependsOnLane(slices, lanes[k], lanes[j], id, d) {
      OneDependency(slices, lanes, sliceIds, laneIds, followUpPaths, sliceCount, k, j, id, d);
    }
  }

  lemma AcceptedLane(
      slices: seq<Slice>, lanes: seq<Lane>, sliceIds: seq<string>, laneIds: seq<string>, followUpPaths: int, sliceCount: int,
      k: nat)
    requires Accepts(slices, lanes, sliceIds, laneIds, followUpPaths, sliceCount) && k < |lanes|
    ensures |lanes| == |laneIds| && lanes[k].id == laneIds[k]
    ensures forall other :: other in lanes[k].dependsOnLanes <==> Requires(lanes, SliceMap(slices), lanes[k], other)
  {
    assert LaneAccepted(lanes, SliceMap(slices), k, laneIds);
  }

  /** A dependency of a slice of lane k leads to lane j exactly when lane j holds what is depended on. */
  lemma OneDependency(
      slices: seq<Slice>, lanes: seq<Lane>, sliceIds: seq<string>, laneIds: seq<string>, followUpPaths: int, sliceCount: int,
      k: nat, j: nat, id: string, d: string)
    requires NeverTwice(sliceIds) && NeverTwice(laneIds)
    requires Accepts(slices, lanes, sliceIds, laneIds, followUpPaths, sliceCount) && k < |lanes| && j < |lanes|
    ensures var m := SliceMap(slices);
      DependsOnLane(slices, lanes[k], lanes[j], id, d) <==>
        id in lanes[k].sliceIds && id in m && d in m[id].dependsOn && LaneIdOf(lanes, d) == laneIds[j]
  {
    var m := SliceMap(slices);
    SliceMapHolds(slices, sliceIds);
    OneSlice(slices, m, sliceIds, id, d);
    if id in m && d in m[id].dependsOn {
      DependencyIsAssigned(slices, lanes, m, sliceIds, id, d);
      AssignedAre(lanes, d);
      AcceptedLane(slices, lanes, sliceIds, laneIds, followUpPaths, sliceCount, LaneOf(lanes, d));
      if d in lanes[j].sliceIds {
        OneLaneEach(lanes, d, j, LaneOf(lanes, d));
      }
    }
  }

  /** A slice of one lane depends on a slice of the other. */
  ghost predicate DependsOnLane(slices: seq<Slice>, lane: Lane, other: Lane, id: string, d: string) {
    id in lane.sliceIds && d in other.sliceIds && exists s :: s in slices && s.id == id && d in s.dependsOn
  }

  lemma OneSlice(slices: seq<Slice>, m: map<string, Slice>, sliceIds: seq<string>, id: string, d: string)
    requires NeverTwice(sliceIds) && |slices| == |sliceIds| && (forall k :: k in m <==> k in sliceIds)
    requires forall i :: 0 <= i < |slices| ==> slices[i].id == sliceIds[i] && sliceIds[i] in m && m[sliceIds[i]] == slices[i]
    ensures id in m && d in m[id].dependsOn <==> exists s :: s in slices && s.id == id && d in s.dependsOn
  {
    if id in m {
      var i :| 0 <= i < |sliceIds| && sliceIds[i] == id;
      assert slices[i] in slices && m[id] == slices[i];
    }
  }

  lemma DependencyIsAssigned(
      slices: seq<Slice>, lanes: seq<Lane>, m: map<string, Slice>, sliceIds: seq<string>, id: string, d: string)
    requires GoodSlices(slices, sliceIds) && AssignsEachOnce(lanes, sliceIds)
    requires forall i :: 0 <= i < |slices| ==> sliceIds[i] in m && m[sliceIds[i]] == slices[i]
    requires id in sliceIds && id in m && d in m[id].dependsOn
    ensures d in Assigned(lanes)
  {
    var i :| 0 <= i < |sliceIds| && sliceIds[i] == id;
    assert GoodSlice(slices[i], i + 1, sliceIds[i], sliceIds);
  }

  lemma RequiresSlice(lanes: seq<Lane>, m: map<string, Slice>, lane: Lane, id: string, d: string)
    requires id in lane.sliceIds && id in m && d in m[id].dependsOn && LaneIdOf(lanes, d) != lane.id
    ensures Requires(lanes, m, lane, LaneIdOf(lanes, d))
  {
  }

  lemma LaneIdentities(lanes: seq<Lane>, m: map<string, Slice>, laneIds: seq<string>)
    requires |lanes| == |laneIds| && LanesKnown(lanes, m)
    requires forall k :: 0 <= k < |lanes| ==> LaneAccepted(lanes, m, k, laneIds)
    ensures forall k :: 0 <= k < |lanes| ==> lanes[k].id == laneIds[k] && lanes[k].order == k + 1
  {
    forall k | 0 <= k < |lanes| ensures lanes[k].id == laneIds[k] && lanes[k].order == k + 1 {
      assert LaneAccepted(lanes, m, k, laneIds);
    }
  }

  /** Every lane a lane depends on is an earlier lane, so following dependencies never comes back:
      along any path in the lane graph the positions strictly fall. */
  lemma LaneGraphIsAcyclic(
      slices: seq<Slice>, lanes: seq<Lane>, sliceIds: seq<string>, laneIds: seq<string>, followUpPaths: int, sliceCount: int,
      path: seq<nat>)
    requires NeverTwice(sliceIds) && NeverTwice(laneIds)
    requires Accepts(slices, lanes, sliceIds, laneIds, followUpPaths, sliceCount)
    requires forall i :: 0 <= i < |path| ==> path[i] < |lanes|
    requires forall i :: 0 <= i < |path| - 1 ==> laneIds[path[i + 1]] in lanes[path[i]].dependsOnLanes
    ensures forall i, j :: 0 <= i < j < |path| ==> path[j] < path[i]
  {
    var m := SliceMap(slices);
    LaneIdentities(lanes, m, laneIds);
    forall i | 0 <= i < |path| - 1 ensures path[i + 1] < path[i] {
      assert LaneAccepted(lanes, m, path[i], laneIds);
      OrderOfLane(lanes, laneIds, path[i + 1]);
    }
    Descends(path);
  }

  lemma {:induction false} Descends(path: seq<nat>)
    requires forall i :: 0 <= i < |path| - 1 ==> path[i + 1] < path[i]
    ensures forall i, j :: 0 <= i < j < |path| ==> path[j] < path[i]
  {
    if |path| > 1 {
      var n := |path| - 1;
      Descends(path[..n]);
      assert path[n] < path[n - 1];
      assert forall i :: 0 <= i < n ==> path[..n][i] == path[i];
    }
  }

  lemma {:induction false} TotalsAreSums(lanes: seq<Lane>, m: map<string, Slice>)
    requires LanesKnown(lanes, m)
    ensures forall id :: id in Assigned(lanes) ==> id in m
    ensures TotalPaths(lanes, m) == Sum(Paths(m), Assigned(lanes))
    ensures TotalVerifications(lanes, m) == Sum(Verifications(m), Assigned(lanes))
  {
    if lanes != [] {
      var n := |lanes| - 1;
      assert forall k :: 0 <= k < n ==> lanes[..n][k] == lanes[k];
      TotalsAreSums(lanes[..n], m);
      SumAppend(Paths(m), Assigned(lanes[..n]), lanes[n].sliceIds);
      SumAppend(Verifications(m), Assigned(lanes[..n]), lanes[n].sliceIds);
    }
  }

  /** Conservation: the lane sums add up to the sums over all slices. */
  lemma LaneSumsConserveTotals(
      slices: seq<Slice>, lanes: seq<Lane>, sliceIds: seq<string>, laneIds: seq<string>, followUpPaths: int, sliceCount: int)
    requires NeverTwice(sliceIds) && Accepts(slices, lanes, sliceIds, laneIds, followUpPaths, sliceCount)
    ensures var m := SliceMap(slices);
      && (forall id :: id in sliceIds ==> id in m)
      && followUpPaths == TotalPaths(lanes, m) == Sum(Paths(m), sliceIds)
      && TotalVerifications(lanes, m) == Sum(Verifications(m), sliceIds)
      && sliceCount == |sliceIds|
  {
    var m := SliceMap(slices);
    SliceMapHolds(slices, sliceIds);
    TotalsAreSums(lanes, m);
    SumOfPermutation(Paths(m), Assigned(lanes), sliceIds);
    SumOfPermutation(Verifications(m), Assigned(lanes), sliceIds);
    SameLength(Assigned(lanes), sliceIds);
  }

  // The sums in the slices' own fields.

  function PathsOver(slices: seq<Slice>): int {
    if slices == [] then 0 else PathsOver(slices[..|slices| - 1]) + slices[|slices| - 1].pathCount
  }

  function VerificationsOver(slices: seq<Slice>): int {
    if slices == [] then 0 else VerificationsOver(slices[..|slices| - 1]) + slices[|slices| - 1].verificationCount
  }

  /** These slices go by these identities in the dictionary. */
  predicate AreNamed(picked: seq<Slice>, m: map<string, Slice>, ids: seq<string>) {
    |picked| == |ids| && forall i :: 0 <= i < |ids| ==> ids[i] in m && m[ids[i]] == picked[i]
  }

  lemma {:induction false} SumsOverSlices(picked: seq<Slice>, m: map<string, Slice>, ids: seq<string>)
    requires AreNamed(picked, m, ids)
    ensures forall id :: id in ids ==> id in m
    ensures Sum(Paths(m), ids) == PathsOver(picked)
    ensures Sum(Verifications(m), ids) == VerificationsOver(picked)
  {
    if ids != [] {
      var n := |ids| - 1;
      SumsOverSlices(picked[..n], m, ids[..n]);
      LastOrBefore(ids);
    }
  }

  /** Each lane's budgets are the numbers of paths and of verifications of its own slices. */
  lemma LaneBudgetsAreItsSlices(
      slices: seq<Slice>, lanes: seq<Lane>, sliceIds: seq<string>, laneIds: seq<string>, followUpPaths: int, sliceCount: int,
      k: nat) returns (picked: seq<Slice>)
    requires NeverTwice(sliceIds) && Accepts(slices, lanes, sliceIds, laneIds, followUpPaths, sliceCount) && k < |lanes|
    ensures |picked| == |lanes[k].sliceIds|
    ensures forall i :: 0 <= i < |picked| ==> picked[i] in slices && picked[i].id == lanes[k].sliceIds[i]
    ensures lanes[k].expectedPathCount == PathsOver(picked)
    ensures lanes[k].expectedVerificationCount == VerificationsOver(picked)
  {
    var m, ids := SliceMap(slices), lanes[k].sliceIds;
    SliceMapHolds(slices, sliceIds);
    assert LaneAccepted(lanes, m, k, laneIds);
    assert forall i :: 0 <= i < |ids| ==> ids[i] in m;
    picked := seq(|ids|, i requires 0 <= i < |ids| => m[ids[i]]);
    forall i | 0 <= i < |ids| ensures picked[i] in slices && picked[i].id == ids[i] {
      assert ids[i] in sliceIds;
      var j :| 0 <= j < |sliceIds| && sliceIds[j] == ids[i];
      assert GoodSlice(slices[j], j + 1, sliceIds[j], sliceIds) && m[sliceIds[j]] == slices[j];
    }
    SumsOverSlices(picked, m, ids);
  }

  /** The totals are the numbers of paths and of verifications of all slices. */
  lemma TotalsAreOfAllSlices(
      slices: seq<Slice>, lanes: seq<Lane>, sliceIds: seq<string>, laneIds: seq<string>, followUpPaths: int, sliceCount: int)
    requires NeverTwice(sliceIds) && Accepts(slices, lanes, sliceIds, laneIds, followUpPaths, sliceCount)
    ensures TotalPaths(lanes, SliceMap(slices)) == PathsOver(slices) == followUpPaths
    ensures TotalVerifications(lanes, SliceMap(slices)) == VerificationsOver(slices)
    ensures sliceCount == |slices|
  {
    LaneSumsConserveTotals(slices, lanes, sliceIds, laneIds, followUpPaths, sliceCount);
    SliceMapHolds(slices, sliceIds);
    assert forall i :: 0 <= i < |sliceIds| ==> sliceIds[i] in sliceIds;
    SumsOverSlices(slices, SliceMap(slices), sliceIds);
  }

  /** Every slice has at least one path and one verification. */
  lemma {:induction false} EverySliceCounts(slices: seq<Slice>, sliceIds: seq<string>, n: nat)
    requires GoodSlices(slices, sliceIds) && n <= |slices|
    ensures PathsOver(slices[..n]) >= n && VerificationsOver(slices[..n]) >= n
  {
    if n > 0 {
      assert GoodSlice(slices[n - 1], n, sliceIds[n - 1], sliceIds);
      assert slices[..n][..n - 1] == slices[..n - 1];
      EverySliceCounts(slices, sliceIds, n - 1);
    }
  }

  lemma SameLength(a: seq<string>, b: seq<string>)
    requires NeverTwice(a) && NeverTwice(b) && forall id :: id in a <==> id in b
    ensures |a| == |b|
  {
    var ones := map id | id in a :: 1;
    SumOfPermutation(ones, a, b);
    CountsOnes(ones, a);
    CountsOnes(ones, b);
  }

  lemma {:induction false} CountsOnes(ones: map<string, int>, ids: seq<string>)
    requires forall id :: id in ids ==> id in ones && ones[id] == 1
    ensures Sum(ones, ids) == |ids|
  {
    if ids != [] {
      CountsOnes(ones, ids[..|ids| - 1]);
    }
  }
}
