/** Loop-closure residuals against pose-graph vertices (scripts/analyze_pose_graph_loop_residuals.py).

    Square root and arc cosine are parameters: nothing below depends on what they are. */
module LoopResiduals {
  import opened Options
  import opened Statistics
  import opened Reals
  import opened RigidMotion
  import opened StampSearch

  datatype Libm = Libm(sqrt: real -> real, acosDeg: real -> real)
  datatype Edge = Edge(source: int, target: int, measurement: Pose, line: nat, fitness: Option<real>)

  datatype Row = Row(
    source: int, target: int, indexGap: int,
    translationResidual: real, rotationResidual: real, pairDistance: real, measurementTranslation: real,
    line: nat, fitness: Option<real>)

  datatype Status = PASS | FAIL

  datatype Summary = Summary(mean: Option<real>, max: Option<real>)

  datatype Report = Report(
    vertexCount: nat, edgeCount: nat, missing: nat, rows: seq<Row>,
    translation: Summary, rotation: Summary, status: Status)

  // ---------- pose_matrix and the error of one edge ----------

  datatype PoseResult = Transform(pose: Pose) | TooShort | ZeroNorm

  /** `pose_matrix`. */
  function PoseMatrix(values: seq<real>): PoseResult {
    if |values| < 7 then TooShort
    else
      match QuaternionMatrix(Quat(values[3], values[4], values[5], values[6]))
      case ZeroNorm => PoseResult.ZeroNorm
      case Matrix(m) => Transform(Pose(m, Vec(values[0], values[1], values[2])))
  }

  /** Every pose read from a file is rigid. */
  lemma PoseMatrixIsRigid(values: seq<real>)
    ensures PoseMatrix(values).Transform? ==> IsRigid(PoseMatrix(values).pose)
    ensures PoseMatrix(values).Transform? <==>
      |values| >= 7 && QuatNormSq(Quat(values[3], values[4], values[5], values[6])) > 0.0
  {
    if |values| >= 7 && QuatNormSq(Quat(values[3], values[4], values[5], values[6])) > 0.0 {
      RotationIsOrthonormal(Quat(values[3], values[4], values[5], values[6]));
    }
  }

  function Cosine(m: Mat): real { (Trace(m) - 1.0) * 0.5 }

  function RotationAngle(libm: Libm, m: Mat): real { libm.acosDeg(Clip(Cosine(m), -1.0, 1.0)) }

  function Predicted(a: Pose, b: Pose): Pose { Compose(Inverse(a), b) }

  function ErrorOf(a: Pose, b: Pose, measurement: Pose): Pose { Compose(Inverse(measurement), Predicted(a, b)) }

  /** Poses relative to one another do not see the choice of map frame. */
  lemma PredictedIsGaugeFree(g: Pose, a: Pose, b: Pose)
    requires IsRigid(g) && IsRigid(a)
    ensures Predicted(Compose(g, a), Compose(g, b)) == Predicted(a, b)
  {
    PosesCompose(g, a);
    InverseInverts(g);
    ComposeAssociative(Inverse(a), Inverse(g), Compose(g, b));
    ComposeAssociative(Inverse(g), g, b);
    UnitPose(b);
  }

  /** The translation residual is the distance between predicted and measured relative translation. */
  lemma TranslationResidualIsADistance(a: Pose, b: Pose, measurement: Pose)
    requires IsRigid(measurement)
    ensures NormSq(ErrorOf(a, b, measurement).t) == NormSq(Sub(Predicted(a, b).t, measurement.t))
  {
    var r := Transpose(measurement.rot);
    var p := Predicted(a, b);
    MulVecLinear(r, p.t, measurement.t);
    assert ErrorOf(a, b, measurement).t == MulVec(r, Sub(p.t, measurement.t));
    RotationExactly(measurement.rot);
    RotationKeepsDot(r, Sub(p.t, measurement.t), Sub(p.t, measurement.t));
  }

  /** Both residuals vanish exactly when the vertices satisfy the edge. */
  lemma ZeroResidualMeansSatisfied(a: Pose, b: Pose, measurement: Pose)
    requires IsRigid(a) && IsRigid(b) && IsRigid(measurement)
    ensures var e := ErrorOf(a, b, measurement);
      (NormSq(e.t) == 0.0 && Cosine(e.rot) == 1.0) <==> b == Compose(a, measurement)
  {
    InverseInverts(a);
    InverseInverts(measurement);
    PosesCompose(Inverse(a), b);
    PosesCompose(Inverse(measurement), Predicted(a, b));
    ZeroErrorIsUnit(ErrorOf(a, b, measurement));
    UndoOnTheLeft(measurement, Predicted(a, b), UNIT_POSE);
    UnitPose(measurement);
    UndoOnTheLeft(a, b, measurement);
  }

  lemma UndoOnTheLeft(a: Pose, b: Pose, c: Pose)
    requires IsRigid(a)
    ensures Compose(Inverse(a), b) == c <==> b == Compose(a, c)
  {
    InverseInverts(a);
    ComposeAssociative(a, Inverse(a), b);
    ComposeAssociative(Inverse(a), a, c);
    UnitPose(b);
    UnitPose(c);
  }

  lemma ZeroErrorIsUnit(e: Pose)
    requires IsRigid(e)
    ensures (NormSq(e.t) == 0.0 && Cosine(e.rot) == 1.0) <==> e == UNIT_POSE
  {
    if NormSq(e.t) == 0.0 && Cosine(e.rot) == 1.0 {
      FullTraceIsIdentity(e.rot);
      ZeroNorm(e.t);
    }
    assert Cosine(IDENTITY) == 1.0 && NormSq(ZERO) == 0.0;
  }

  lemma ZeroNorm(v: Vec)
    requires NormSq(v) == 0.0
    ensures v == ZERO
  {
    SquareIsPositive(v.x);
    SquareIsPositive(v.y);
    SquareIsPositive(v.z);
  }

  lemma SquareIsPositive(x: real)
    ensures x * x >= 0.0 && (x * x == 0.0 ==> x == 0.0)
  {
    if x != 0.0 {
      assert (x * x) / x == x;
    }
  }

  /** The identity is the only rotation of full trace. */
  lemma FullTraceIsIdentity(m: Mat)
    requires IsRotation(m) && Trace(m) == 3.0
    ensures m == IDENTITY
  {
    RowsAreUnit(m);
    UnitRowsOfFullTrace(m);
  }

  lemma UnitRowsOfFullTrace(m: Mat)
    requires Trace(m) == 3.0
    requires SumSq(m.row0.x, m.row0.y, m.row0.z) == SumSq(m.row1.y, m.row1.x, m.row1.z) == 1.0
    requires SumSq(m.row2.z, m.row2.x, m.row2.y) == 1.0
    ensures m == IDENTITY
  {
    UnitRow(m.row0.x, m.row0.y, m.row0.z);
    UnitRow(m.row1.y, m.row1.x, m.row1.z);
    UnitRow(m.row2.z, m.row2.x, m.row2.y);
    assert m.row0.x == 1.0 && m.row1.y == 1.0 && m.row2.z == 1.0;
  }

  lemma RowsAreUnit(m: Mat)
    requires IsRotation(m)
    ensures SumSq(m.row0.x, m.row0.y, m.row0.z) == 1.0
    ensures SumSq(m.row1.y, m.row1.x, m.row1.z) == 1.0
    ensures SumSq(m.row2.z, m.row2.x, m.row2.y) == 1.0
  {
    RotationExactly(m);
    assert Transpose(Transpose(m)) == m;
    assert MulMat(m, Transpose(m)) == Mat(MulVec(m, m.row0), MulVec(m, m.row1), MulVec(m, m.row2));
  }

  function SumSq(a: real, b: real, c: real): real { a * a + b * b + c * c }

  lemma UnitRow(a: real, b: real, c: real)
    requires SumSq(a, b, c) == 1.0
    ensures a <= 1.0 && (a == 1.0 ==> b == 0.0 && c == 0.0)
  {
    SquareIsPositive(b);
    SquareIsPositive(c);
    assert a > 1.0 ==> a * a > 1.0;
  }

  /** With poses read from quaternions the error of an edge is again a quaternion rotation; its
      (trace - 1) / 2 is 2 w^2 - 1 for the unit quaternion, and the clip leaves it alone. */
  lemma EdgeCosineIsExact(qa: Quat, ta: Vec, qb: Quat, tb: Vec, qm: Quat, tm: Vec)
    requires QuatNormSq(qa) > 0.0 && QuatNormSq(qb) > 0.0 && QuatNormSq(qm) > 0.0
    ensures
      var e := ErrorOf(Pose(RotationOf(qa), ta), Pose(RotationOf(qb), tb), Pose(RotationOf(qm), tm));
      var q := QuatMul(Conjugate(qm), QuatMul(Conjugate(qa), qb));
      && QuatNormSq(q) > 0.0
      && Cosine(e.rot) == 2.0 * (q.w * q.w / QuatNormSq(q)) - 1.0
      && Clip(Cosine(e.rot), -1.0, 1.0) == Cosine(e.rot)
  {
    ConjugateTransposes(qm);
    ConjugateTransposes(qa);
    RotationHomomorphism(Conjugate(qa), qb);
    RotationHomomorphism(Conjugate(qm), QuatMul(Conjugate(qa), qb));
    TraceIsCosine(QuatMul(Conjugate(qm), QuatMul(Conjugate(qa), qb)));
  }

  // ---------- analyze_edges ----------

  function AbsInt(x: int): nat { if x < 0 then -x else x }

  predicate Adjacent(e: Edge, window: int) { window >= 0 && AbsInt(e.target - e.source) <= window }

  predicate HasBoth(vertices: map<int, Pose>, e: Edge) { e.source in vertices && e.target in vertices }

  function RowOf(libm: Libm, vertices: map<int, Pose>, e: Edge): Row
    requires HasBoth(vertices, e)
  {
    var predicted := Predicted(vertices[e.source], vertices[e.target]);
    var error := Compose(Inverse(e.measurement), predicted);
    Row(e.source, e.target, AbsInt(e.target - e.source),
        libm.sqrt(NormSq(error.t)), RotationAngle(libm, error.rot), libm.sqrt(NormSq(predicted.t)),
        libm.sqrt(NormSq(e.measurement.t)), e.line, e.fitness)
  }

  /** The loop edges, in file order. */
  function Loops(edges: seq<Edge>, window: int): seq<Edge> {
    if edges == [] then []
    else
      var last := edges[|edges| - 1];
      Loops(edges[..|edges| - 1], window) + if Adjacent(last, window) then [] else [last]
  }

  function Rows(libm: Libm, vertices: map<int, Pose>, loops: seq<Edge>): seq<Row> {
    if loops == [] then []
    else
      var last := loops[|loops| - 1];
      Rows(libm, vertices, loops[..|loops| - 1]) + if HasBoth(vertices, last) then [RowOf(libm, vertices, last)] else []
  }

  function Summarise(xs: seq<real>): Summary {
    if xs == [] then Summary(None, None) else Summary(Some(Mean(xs)), Some(Max(xs)))
  }

  function Translations(rows: seq<Row>): seq<real> {
    seq(|rows|, i requires 0 <= i < |rows| => rows[i].translationResidual)
  }

  function Rotations(rows: seq<Row>): seq<real> {
    seq(|rows|, i requires 0 <= i < |rows| => rows[i].rotationResidual)
  }

  /** The report as a function of its inputs. */
  function ReportOf(libm: Libm, vertices: map<int, Pose>, edges: seq<Edge>, window: int): Report {
    var loops := Loops(edges, window);
    var rows := Rows(libm, vertices, loops);
    RowsAreAtMostLoops(libm, vertices, loops);
    var missing := |loops| - |rows|;
    Report(|vertices|, |edges|, missing, rows, Summarise(Translations(rows)), Summarise(Rotations(rows)),
           if rows != [] && missing == 0 then PASS else FAIL)
  }

  lemma {:induction false} RowsAreAtMostLoops(libm: Libm, vertices: map<int, Pose>, loops: seq<Edge>)
    ensures |Rows(libm, vertices, loops)| <= |loops|
    ensures |Rows(libm, vertices, loops)| == |loops| <==> forall e :: e in loops ==> HasBoth(vertices, e)
  {
    if loops != [] {
      RowsAreAtMostLoops(libm, vertices, loops[..|loops| - 1]);
      assert loops == loops[..|loops| - 1] + [loops[|loops| - 1]];
    }
  }

  lemma LoopsStep(edges: seq<Edge>, e: Edge, window: int)
    ensures Loops(edges + [e], window) == Loops(edges, window) + if Adjacent(e, window) then [] else [e]
  {
    assert (edges + [e])[..|edges|] == edges;
  }

  lemma RowsStep(libm: Libm, vertices: map<int, Pose>, loops: seq<Edge>, e: Edge)
    ensures Rows(libm, vertices, loops + [e]) ==
      if HasBoth(vertices, e) then Rows(libm, vertices, loops) + [RowOf(libm, vertices, e)] else Rows(libm, vertices, loops)
  {
    assert (loops + [e])[..|loops|] == loops;
  }

  /** What reading one more edge does to the loops and to the rows. */
  lemma EdgeStep(libm: Libm, vertices: map<int, Pose>, edges: seq<Edge>, window: int, n: nat)
    requires n < |edges|
    ensures
      var before := Loops(edges[..n], window);
      var after := Loops(edges[..n + 1], window);
      if Adjacent(edges[n], window) then after == before
      else
        && |after| == |before| + 1
        && Rows(libm, vertices, after) ==
             if HasBoth(vertices, edges[n]) then Rows(libm, vertices, before) + [RowOf(libm, vertices, edges[n])]
             else Rows(libm, vertices, before)
  {
    var before := Loops(edges[..n], window);
    LoopsStep(edges[..n], edges[n], window);
    assert edges[..n + 1] == edges[..n] + [edges[n]];
    assert before + [] == before;
    RowsStep(libm, vertices, before, edges[n]);
  }

  method AnalyzeEdges(libm: Libm, vertices: map<int, Pose>, edges: seq<Edge>, window: int) returns (report: Report)
    ensures report == ReportOf(libm, vertices, edges, window)
  {
    var rows: seq<Row> := [];
    var missing := 0;
    for n := 0 to |edges|
      invariant rows == Rows(libm, vertices, Loops(edges[..n], window))
      invariant missing == |Loops(edges[..n], window)| - |rows|
    {
      var e := edges[n];
      EdgeStep(libm, vertices, edges, window, n);
      if Adjacent(e, window) { continue; }
      if e.source !in vertices || e.target !in vertices {
        missing := missing + 1;
        continue;
      }
      rows := rows + [RowOf(libm, vertices, e)];
    }
    assert edges[..|edges|] == edges;
    report := Report(|vertices|, |edges|, missing, rows, Summarise(Translations(rows)), Summarise(Rotations(rows)),
                     if rows != [] && missing == 0 then PASS else FAIL);
  }

  /** Every edge is skipped, missing a vertex, or reported: PASS means at least one loop edge and none missing. */
  lemma PassMeansEveryLoopScored(libm: Libm, vertices: map<int, Pose>, edges: seq<Edge>, window: int)
    ensures ReportOf(libm, vertices, edges, window).status == PASS <==>
      && (exists e :: e in edges && !Adjacent(e, window))
      && (forall e :: e in edges && !Adjacent(e, window) ==> HasBoth(vertices, e))
  {
    var loops := Loops(edges, window);
    LoopsAre(edges, window);
    RowsAreAtMostLoops(libm, vertices, loops);
    if loops != [] { assert loops[0] in loops; }
  }

  lemma {:induction false} LoopsAre(edges: seq<Edge>, window: int)
    ensures forall e :: e in Loops(edges, window) <==> e in edges && !Adjacent(e, window)
  {
    if edges != [] {
      LoopsAre(edges[..|edges| - 1], window);
      assert edges == edges[..|edges| - 1] + [edges[|edges| - 1]];
    }
  }

  // ---------- gauge freedom ----------

  ghost predicate AllRigid(vertices: map<int, Pose>) { forall k :: k in vertices ==> IsRigid(vertices[k]) }

  /** The same graph drawn in another map frame. */
  function Moved(g: Pose, vertices: map<int, Pose>): map<int, Pose> {
    map k | k in vertices :: Compose(g, vertices[k])
  }

  /** Moving every vertex by one rigid transform changes nothing in the report. */
  lemma ReportIsGaugeFree(libm: Libm, g: Pose, vertices: map<int, Pose>, edges: seq<Edge>, window: int)
    requires IsRigid(g) && AllRigid(vertices)
    ensures ReportOf(libm, Moved(g, vertices), edges, window) == ReportOf(libm, vertices, edges, window)
  {
    RowsAreGaugeFree(libm, g, vertices, Loops(edges, window));
    assert Moved(g, vertices).Keys == vertices.Keys;
    assert |Moved(g, vertices)| == |Moved(g, vertices).Keys|;
  }

  lemma {:induction false} RowsAreGaugeFree(libm: Libm, g: Pose, vertices: map<int, Pose>, loops: seq<Edge>)
    requires IsRigid(g) && AllRigid(vertices)
    ensures Rows(libm, Moved(g, vertices), loops) == Rows(libm, vertices, loops)
  {
    if loops != [] {
      RowsAreGaugeFree(libm, g, vertices, loops[..|loops| - 1]);
      var e := loops[|loops| - 1];
      if HasBoth(vertices, e) {
        PredictedIsGaugeFree(g, vertices[e.source], vertices[e.target]);
      }
    }
  }

  // ---------- analyze_offline_reference ----------

  datatype Stamped = Stamped(stamp: real, pose: Pose)

  function StampsOf(poses: seq<Stamped>): seq<real> {
    seq(|poses|, i requires 0 <= i < |poses| => poses[i].stamp)
  }

  function Endpoints(edges: seq<Edge>): set<int> {
    (set e | e in edges :: e.source) + (set e | e in edges :: e.target)
  }

  /** The reference pose used for one stamp. */
  function ReferencePose(reference: seq<Stamped>, stamp: real, maxTimeDiff: real): Option<Pose>
    requires reference != []
  {
    var nearest := reference[NearestIndex(StampsOf(reference), stamp)];
    if Abs(nearest.stamp - stamp) <= maxTimeDiff then Some(nearest.pose) else None
  }

  predicate IsReferenced(indexed: seq<Stamped>, reference: seq<Stamped>, maxTimeDiff: real, k: int)
    requires reference != []
  {
    0 <= k < |indexed| && ReferencePose(reference, indexed[k].stamp, maxTimeDiff).Some?
  }

  function ReferenceVertices(
      indexed: seq<Stamped>, reference: seq<Stamped>, edges: seq<Edge>, maxTimeDiff: real): map<int, Pose>
  {
    if reference == [] then map[]
    else
      map k | k in Endpoints(edges) && IsReferenced(indexed, reference, maxTimeDiff, k)
        :: ReferencePose(reference, indexed[k].stamp, maxTimeDiff).value
  }

  predicate Within(reference: seq<Stamped>, stamp: real, maxTimeDiff: real, r: int) {
    0 <= r < |reference| && Abs(reference[r].stamp - stamp) <= maxTimeDiff
  }

  ghost predicate IsNearest(reference: seq<Stamped>, stamp: real, r: int) {
    0 <= r < |reference|
    && forall o :: 0 <= o < |reference| ==> Abs(reference[r].stamp - stamp) <= Abs(reference[o].stamp - stamp)
  }

  /** The search answers every query over these reference stamps with a nearest one. */
  predicate ReferencesSearchable(reference: seq<Stamped>) { Searchable(StampsOf(reference)) }

  lemma ChosenIsNearest(reference: seq<Stamped>, stamp: real)
    requires reference != [] && ReferencesSearchable(reference)
    ensures IsNearest(reference, stamp, NearestIndex(StampsOf(reference), stamp))
  {
    var times := StampsOf(reference);
    SearchableAnswers(times, stamp);
    AnswerIsNearest(reference, stamp);
  }

  lemma AnswerIsNearest(reference: seq<Stamped>, stamp: real)
    requires reference != [] && AnsweredRight(StampsOf(reference), stamp)
    ensures IsNearest(reference, stamp, NearestIndex(StampsOf(reference), stamp))
  {
    var times, r := StampsOf(reference), NearestIndex(StampsOf(reference), stamp);
    assert times[r] == reference[r].stamp;
    forall o | 0 <= o < |reference| ensures Abs(reference[r].stamp - stamp) <= Abs(reference[o].stamp - stamp) {
      assert times[o] == reference[o].stamp;
    }
  }

  lemma ReferenceVertexKept(
      indexed: seq<Stamped>, reference: seq<Stamped>, edges: seq<Edge>, maxTimeDiff: real, k: int)
    requires reference != []
    ensures k in ReferenceVertices(indexed, reference, edges, maxTimeDiff) <==>
      && k in Endpoints(edges) && 0 <= k < |indexed|
      && Within(reference, indexed[k].stamp, maxTimeDiff, NearestIndex(StampsOf(reference), indexed[k].stamp))
  {
  }

  /** Whatever the order of the reference file: a pose is given only to an endpoint that names a pose, and
      it is one whose stamp lies within the bound. */
  lemma ReferenceVerticesAreSound(
      indexed: seq<Stamped>, reference: seq<Stamped>, edges: seq<Edge>, maxTimeDiff: real, k: int)
    requires k in ReferenceVertices(indexed, reference, edges, maxTimeDiff)
    ensures k in Endpoints(edges) && 0 <= k < |indexed|
    ensures exists r ::
      && Within(reference, indexed[k].stamp, maxTimeDiff, r)
      && ReferenceVertices(indexed, reference, edges, maxTimeDiff)[k] == reference[r].pose
  {
    ReferenceVertexKept(indexed, reference, edges, maxTimeDiff, k);
  }

  /** Over searchable reference stamps, sorted ones in particular, an endpoint gets a reference pose exactly
      when some reference stamp lies within the bound, and then one whose stamp no other one beats. */
  lemma ReferenceVerticesAreNearest(
      indexed: seq<Stamped>, reference: seq<Stamped>, edges: seq<Edge>, maxTimeDiff: real, k: int)
    requires ReferencesSearchable(reference)
    ensures k in ReferenceVertices(indexed, reference, edges, maxTimeDiff) <==>
      && k in Endpoints(edges) && 0 <= k < |indexed|
      && exists r :: Within(reference, indexed[k].stamp, maxTimeDiff, r)
    ensures k in ReferenceVertices(indexed, reference, edges, maxTimeDiff) ==>
      exists r :: IsNearest(reference, indexed[k].stamp, r)
        && ReferenceVertices(indexed, reference, edges, maxTimeDiff)[k] == reference[r].pose
  {
    if reference != [] && 0 <= k < |indexed| {
      ReferenceVertexKept(indexed, reference, edges, maxTimeDiff, k);
      ChosenIsNearest(reference, indexed[k].stamp);
    }
  }

  /** The loop over the set of endpoints: whatever the order, the same map comes out. */
  method CollectReferenceVertices(
      indexed: seq<Stamped>, reference: seq<Stamped>, edges: seq<Edge>, maxTimeDiff: real)
      returns (vertices: map<int, Pose>)
    ensures vertices == ReferenceVertices(indexed, reference, edges, maxTimeDiff)
  {
    vertices := map[];
    if reference == [] { return; }
    var todo := Endpoints(edges);
    ghost var wanted := ReferenceVertices(indexed, reference, edges, maxTimeDiff);
    while todo != {}
      invariant todo <= Endpoints(edges)
      invariant vertices.Keys == wanted.Keys - todo
      invariant forall k :: k in vertices ==> vertices[k] == wanted[k]
      decreases |todo|
    {
      var k :| k in todo;
      todo := todo - {k};
      if k < 0 || k >= |indexed| { continue; }
      match ReferencePose(reference, indexed[k].stamp, maxTimeDiff)
      case Some(pose) => vertices := vertices[k := pose];
      case None =>
    }
  }

  /** `analyze_offline_reference`: the residuals of the edges against the reference poses. */
  method AnalyzeOfflineReference(
      libm: Libm, indexed: seq<Stamped>, reference: seq<Stamped>, edges: seq<Edge>, maxTimeDiff: real)
      returns (report: Report)
    ensures report == ReportOf(libm, ReferenceVertices(indexed, reference, edges, maxTimeDiff), edges, -1)
  {
    var vertices := CollectReferenceVertices(indexed, reference, edges, maxTimeDiff);
    report := AnalyzeEdges(libm, vertices, edges, -1);
  }

  ghost predicate HasReference(indexed: seq<Stamped>, reference: seq<Stamped>, maxTimeDiff: real, k: int) {
    0 <= k < |indexed| && exists r :: Within(reference, indexed[k].stamp, maxTimeDiff, r)
  }

  ghost predicate EveryEndReferenced(
      indexed: seq<Stamped>, reference: seq<Stamped>, edges: seq<Edge>, maxTimeDiff: real)
  {
    forall e :: e in edges ==>
      HasReference(indexed, reference, maxTimeDiff, e.source) && HasReference(indexed, reference, maxTimeDiff, e.target)
  }

  /** A passing offline report never claims too much, whatever the order of the reference file: there is an
      edge, and both ends of every edge name a pose with a reference stamp within the bound. */
  lemma OfflinePassIsSound(
      libm: Libm, indexed: seq<Stamped>, reference: seq<Stamped>, edges: seq<Edge>, maxTimeDiff: real)
    requires ReportOf(libm, ReferenceVertices(indexed, reference, edges, maxTimeDiff), edges, -1).status == PASS
    ensures edges != [] && EveryEndReferenced(indexed, reference, edges, maxTimeDiff)
  {
    var vertices := ReferenceVertices(indexed, reference, edges, maxTimeDiff);
    PassMeansEveryLoopScored(libm, vertices, edges, -1);
    forall e | e in edges
      ensures HasReference(indexed, reference, maxTimeDiff, e.source) && HasReference(indexed, reference, maxTimeDiff, e.target)
    {
      assert !Adjacent(e, -1) && HasBoth(vertices, e);
      ReferenceVerticesAreSound(indexed, reference, edges, maxTimeDiff, e.source);
      ReferenceVerticesAreSound(indexed, reference, edges, maxTimeDiff, e.target);
    }
  }

  /** Over searchable reference stamps it passes exactly then; no edge counts as adjacent here. */
  lemma OfflinePassMeansEveryEndReferenced(
      libm: Libm, indexed: seq<Stamped>, reference: seq<Stamped>, edges: seq<Edge>, maxTimeDiff: real)
    requires ReferencesSearchable(reference)
    ensures ReportOf(libm, ReferenceVertices(indexed, reference, edges, maxTimeDiff), edges, -1).status == PASS <==>
      edges != [] && EveryEndReferenced(indexed, reference, edges, maxTimeDiff)
  {
    var vertices := ReferenceVertices(indexed, reference, edges, maxTimeDiff);
    if ReportOf(libm, vertices, edges, -1).status == PASS {
      OfflinePassIsSound(libm, indexed, reference, edges, maxTimeDiff);
    }
    if edges != [] && EveryEndReferenced(indexed, reference, edges, maxTimeDiff) {
      forall e | e in edges ensures HasBoth(vertices, e) {
        ReferenceVerticesAreNearest(indexed, reference, edges, maxTimeDiff, e.source);
        ReferenceVerticesAreNearest(indexed, reference, edges, maxTimeDiff, e.target);
      }
      assert edges[0] in edges && !Adjacent(edges[0], -1);
      PassMeansEveryLoopScored(libm, vertices, edges, -1);
    }
  }

  /** The verdict tells whether there is an edge and every end is referenced. */
  ghost predicate VerdictIsRight(
      libm: Libm, indexed: seq<Stamped>, reference: seq<Stamped>, edges: seq<Edge>, maxTimeDiff: real)
  {
    ReportOf(libm, ReferenceVertices(indexed, reference, edges, maxTimeDiff), edges, -1).status == PASS <==>
      edges != [] && EveryEndReferenced(indexed, reference, edges, maxTimeDiff)
  }

  /** The verdict is right for all poses, edges and bounds exactly when the reference stamps are searchable. */
  lemma OfflineVerdictExactly(libm: Libm, reference: seq<Stamped>)
    ensures (forall indexed, edges, maxTimeDiff :: VerdictIsRight(libm, indexed, reference, edges, maxTimeDiff)) <==>
      ReferencesSearchable(reference)
  {
    if ReferencesSearchable(reference) {
      forall indexed, edges, maxTimeDiff ensures VerdictIsRight(libm, indexed, reference, edges, maxTimeDiff) {
        OfflinePassMeansEveryEndReferenced(libm, indexed, reference, edges, maxTimeDiff);
      }
    } else {
      var indexed, edges, maxTimeDiff := WrongVerdict(libm, reference);
      assert !VerdictIsRight(libm, indexed, reference, edges, maxTimeDiff);
    }
  }

  lemma WrongVerdict(libm: Libm, reference: seq<Stamped>)
      returns (indexed: seq<Stamped>, edges: seq<Edge>, maxTimeDiff: real)
    requires !ReferencesSearchable(reference)
    ensures !VerdictIsRight(libm, indexed, reference, edges, maxTimeDiff)
  {
    var times := StampsOf(reference);
    var v, k := BadlyAnswered(times);
    var pose := reference[k].pose;
    var edge := Edge(0, 0, pose, 0, None);
    maxTimeDiff := Abs(times[k] - v);
    BadAnswerIsMissed(libm, reference, edge, pose, v, k, maxTimeDiff);
    indexed, edges := [Stamped(v, pose)], [edge];
  }

  lemma BadlyAnswered(times: seq<real>) returns (v: real, k: nat)
    requires !Searchable(times)
    ensures k < |times| && Abs(times[NearestIndex(times, v)] - v) > Abs(times[k] - v)
  {
    AllAnsweredExactly(times);
    v :| !AnsweredRight(times, v);
    k :| 0 <= k < |times| && Abs(times[NearestIndex(times, v)] - v) > Abs(times[k] - v);
  }

  /** One pose at a badly answered stamp with one edge to itself: the bound admits a reference, but not the one
      the search gives. */
  lemma BadAnswerIsMissed(libm: Libm, reference: seq<Stamped>, edge: Edge, pose: Pose, v: real, k: nat, bound: real)
    requires k < |reference| && edge.source == edge.target == 0
    requires var times := StampsOf(reference); Abs(times[k] - v) <= bound < Abs(times[NearestIndex(times, v)] - v)
    ensures EveryEndReferenced([Stamped(v, pose)], reference, [edge], bound)
    ensures ReportOf(libm, ReferenceVertices([Stamped(v, pose)], reference, [edge], bound), [edge], -1).status == FAIL
  {
    assert Within(reference, v, bound, k);
    ReferenceVertexKept([Stamped(v, pose)], reference, [edge], bound, 0);
    PassMeansEveryLoopScored(libm, ReferenceVertices([Stamped(v, pose)], reference, [edge], bound), [edge], -1);
    assert edge in [edge] && !Adjacent(edge, -1);
  }

  /** An unsorted reference file: the report fails although a reference has exactly the stamp asked for. */
  lemma UnsortedReferenceIsMissed(
      libm: Libm, indexed: seq<Stamped>, reference: seq<Stamped>, edges: seq<Edge>, edge: Edge, pose: Pose)
    requires indexed == [Stamped(5.0, pose)] && edge.source == edge.target == 0 && edges == [edge]
    requires reference == [Stamped(5.0, pose), Stamped(0.0, pose), Stamped(10.0, pose)]
    ensures EveryEndReferenced(indexed, reference, edges, 0.05)
    ensures ReportOf(libm, ReferenceVertices(indexed, reference, edges, 0.05), edges, -1).status == FAIL
  {
    var times := StampsOf(reference);
    assert times == [5.0, 0.0, 10.0];
    BisectRound(times, 5.0, 0, 1, 3);
    BisectRound(times, 5.0, 2, 2, 3);
    assert InsertionLeft(times, 5.0) == 2 && NearestIndex(times, 5.0) == 1;
    BadAnswerIsMissed(libm, reference, edge, pose, 5.0, 0, 0.05);
  }
}
