/** What the rows of a loop-residual report say, told from the poses and the measurements alone
    (`analyze_edges` in scripts/analyze_pose_graph_loop_residuals.py). */
module LoopReport {
  import opened Sequences
  import opened Options
  import opened Statistics
  import opened Reals
  import opened RigidMotion
  import opened LoopResiduals

  // ---------- which edges have a row ----------

  predicate IsLoop(e: Edge, window: int) {
    window < 0 || e.target - e.source > window || e.source - e.target > window
  }

  /** The places of the loop edges with both vertices, and of those without. */
  ghost function ScoredPlaces(vertices: map<int, Pose>, edges: seq<Edge>, window: int): set<nat> {
    set n: nat | n < |edges| && IsLoop(edges[n], window) && edges[n].source in vertices && edges[n].target in vertices
  }

  ghost function LostPlaces(vertices: map<int, Pose>, edges: seq<Edge>, window: int): set<nat> {
    set n: nat | n < |edges| && IsLoop(edges[n], window) && !(edges[n].source in vertices && edges[n].target in vertices)
  }

  /** The rows are those of the edges at these places. */
  ghost predicate RowsAt(libm: Libm, vertices: map<int, Pose>, edges: seq<Edge>, rows: seq<Row>, scored: seq<nat>) {
    && |rows| == |scored|
    && forall i :: 0 <= i < |rows| ==>
         scored[i] < |edges| && HasBoth(vertices, edges[scored[i]])
         && rows[i] == RowOf(libm, vertices, edges[scored[i]])
  }

  /** One row for each scored edge, in file order; the others are counted as missing. */
  lemma {:induction false} RowsFollowEdges(libm: Libm, vertices: map<int, Pose>, edges: seq<Edge>, window: int)
      returns (scored: seq<nat>, lost: seq<nat>)
    ensures ArePlaces(scored, ScoredPlaces(vertices, edges, window))
    ensures ArePlaces(lost, LostPlaces(vertices, edges, window))
    ensures var report := ReportOf(libm, vertices, edges, window);
      RowsAt(libm, vertices, edges, report.rows, scored) && report.missing == |lost|
  {
    hide RowOf, ReportOf, IsLoop;
    scored, lost := [], [];
    if edges == [] {
      NoReport(libm, vertices, window);
    } else {
      var n := |edges| - 1;
      scored, lost := RowsFollowEdges(libm, vertices, edges[..n], window);
      ReportGrows(libm, vertices, edges, window);
      PlacesStep(vertices, edges, window);
      var before := ReportOf(libm, vertices, edges[..n], window).rows;
      RowsAtLonger(libm, vertices, edges, before, scored);
      if IsLoop(edges[n], window) {
        if HasBoth(vertices, edges[n]) {
          PlacesGrow(scored, ScoredPlaces(vertices, edges[..n], window), n);
          scored := scored + [n];
        } else {
          PlacesGrow(lost, LostPlaces(vertices, edges[..n], window), n);
          lost := lost + [n];
        }
      }
    }
  }

  /** What the last edge does to the report. */
  lemma ReportGrows(libm: Libm, vertices: map<int, Pose>, edges: seq<Edge>, window: int)
    requires edges != []
    ensures var e := edges[|edges| - 1];
      var before, after := ReportOf(libm, vertices, edges[..|edges| - 1], window), ReportOf(libm, vertices, edges, window);
      && after.missing == before.missing + (if IsLoop(e, window) && !HasBoth(vertices, e) then 1 else 0)
      && (IsLoop(e, window) && HasBoth(vertices, e) ==> after.rows == before.rows + [RowOf(libm, vertices, e)])
      && (!(IsLoop(e, window) && HasBoth(vertices, e)) ==> after.rows == before.rows)
  {
    EdgeStep(libm, vertices, edges, window, |edges| - 1);
    assert edges[..|edges| - 1 + 1] == edges;
  }

  lemma NoReport(libm: Libm, vertices: map<int, Pose>, window: int)
    ensures var report := ReportOf(libm, vertices, [], window); report.rows == [] && report.missing == 0
  {
  }

  lemma RowsAtLonger(libm: Libm, vertices: map<int, Pose>, edges: seq<Edge>, rows: seq<Row>, scored: seq<nat>)
    requires edges != [] && RowsAt(libm, vertices, edges[..|edges| - 1], rows, scored)
    ensures RowsAt(libm, vertices, edges, rows, scored)
    ensures HasBoth(vertices, edges[|edges| - 1]) ==>
      RowsAt(libm, vertices, edges, rows + [RowOf(libm, vertices, edges[|edges| - 1])], scored + [|edges| - 1])
  {
    hide RowOf;
  }

  lemma PlacesStep(vertices: map<int, Pose>, edges: seq<Edge>, window: int)
    requires edges != []
    ensures var n := |edges| - 1;
      var before, lost := ScoredPlaces(vertices, edges[..n], window), LostPlaces(vertices, edges[..n], window);
      && ScoredPlaces(vertices, edges, window) ==
           (if IsLoop(edges[n], window) && HasBoth(vertices, edges[n]) then before + {n} else before)
      && LostPlaces(vertices, edges, window) ==
           (if IsLoop(edges[n], window) && !HasBoth(vertices, edges[n]) then lost + {n} else lost)
  {
  }

  // ---------- what a row says ----------

  /** A pose as `pose_matrix` reads it. */
  ghost predicate IsRead(p: Pose) { exists q :: QuatNormSq(q) > 0.0 && p.rot == RotationOf(q) }

  lemma PosesAreRead(values: seq<real>)
    ensures var r := PoseMatrix(values);
      r.Transform? ==> IsRead(r.pose) && r.pose.t == Vec(values[0], values[1], values[2])
  {
  }

  lemma ReadIsRigid(p: Pose)
    requires IsRead(p)
    ensures IsRigid(p)
  {
    var q :| QuatNormSq(q) > 0.0 && p.rot == RotationOf(q);
    RotationIsOrthonormal(q);
  }

  /** A point of the map in the frame of a pose: the one the pose takes there. */
  function SeenFrom(a: Pose, p: Vec): Vec { MulVec(Transpose(a.rot), Sub(p, a.t)) }

  lemma SeenFromIsTakenThere(a: Pose, p: Vec, seen: Vec)
    requires IsRigid(a)
    ensures seen == SeenFrom(a, p) <==> Add(MulVec(a.rot, seen), a.t) == p
  {
    assert MulVec(a.rot, MulVec(Transpose(a.rot), Sub(p, a.t))) == Sub(p, a.t);
    assert MulVec(Transpose(a.rot), MulVec(a.rot, seen)) == seen;
    assert Add(MulVec(a.rot, seen), a.t) == p ==> MulVec(a.rot, seen) == Sub(p, a.t);
  }

  /** The entrywise inner product of two matrices, 3 for equal rotations. */
  function Alike(m: Mat, n: Mat): real { Dot(m.row0, n.row0) + Dot(m.row1, n.row1) + Dot(m.row2, n.row2) }

  lemma TraceIsAlike(m: Mat, n: Mat)
    ensures Trace(MulMat(Transpose(m), n)) == Alike(m, n)
  {
    TraceEntries(m.row0.x, m.row0.y, m.row0.z, m.row1.x, m.row1.y, m.row1.z, m.row2.x, m.row2.y, m.row2.z,
      n.row0.x, n.row0.y, n.row0.z, n.row1.x, n.row1.y, n.row1.z, n.row2.x, n.row2.y, n.row2.z);
  }

  lemma TraceEntries(a: real, b: real, c: real, d: real, e: real, f: real, g: real, h: real, i: real,
                     p: real, q: real, r: real, s: real, t: real, u: real, v: real, w: real, x: real)
    ensures var m, n := Mat(Vec(a, b, c), Vec(d, e, f), Vec(g, h, i)), Mat(Vec(p, q, r), Vec(s, t, u), Vec(v, w, x));
      Trace(MulMat(Transpose(m), n)) == (a * p + b * q + c * r) + (d * s + e * t + f * u) + (g * v + h * w + i * x)
  {
  }

  /** A row as the two vertices and the measurement determine it: the distance between the second vertex seen
      from the first and the measured translation, the angle between the two relative rotations, the distance of
      the vertices, and the length of the measurement. */
  ghost predicate RowIs(libm: Libm, a: Pose, b: Pose, e: Edge, row: Row) {
    && row.source == e.source && row.target == e.target && row.line == e.line && row.fitness == e.fitness
    && row.indexGap >= 0 && (row.indexGap == e.target - e.source || row.indexGap == e.source - e.target)
    && row.translationResidual == libm.sqrt(NormSq(Sub(SeenFrom(a, b.t), e.measurement.t)))
    && row.rotationResidual ==
         libm.acosDeg((Alike(e.measurement.rot, MulMat(Transpose(a.rot), b.rot)) - 1.0) / 2.0)
    && row.pairDistance == libm.sqrt(NormSq(Sub(b.t, a.t)))
    && row.measurementTranslation == libm.sqrt(NormSq(e.measurement.t))
  }

  lemma PredictedIsSeen(a: Pose, b: Pose)
    ensures Predicted(a, b).t == SeenFrom(a, b.t)
    ensures IsRigid(a) ==> NormSq(Predicted(a, b).t) == NormSq(Sub(b.t, a.t))
  {
    var r := Transpose(a.rot);
    MulVecLinear(r, b.t, a.t);
    if IsRigid(a) {
      RotationExactly(a.rot);
      RotationKeepsDot(r, Sub(b.t, a.t), Sub(b.t, a.t));
    }
  }

  lemma ErrorAngle(libm: Libm, a: Pose, b: Pose, measurement: Pose)
    requires IsRead(a) && IsRead(b) && IsRead(measurement)
    ensures var alike := Alike(measurement.rot, MulMat(Transpose(a.rot), b.rot));
      && -1.0 <= (alike - 1.0) / 2.0 <= 1.0
      && Cosine(ErrorOf(a, b, measurement).rot) == (alike - 1.0) / 2.0
      && RotationAngle(libm, ErrorOf(a, b, measurement).rot) == libm.acosDeg((alike - 1.0) / 2.0)
  {
    var qa :| QuatNormSq(qa) > 0.0 && a.rot == RotationOf(qa);
    var qb :| QuatNormSq(qb) > 0.0 && b.rot == RotationOf(qb);
    var qm :| QuatNormSq(qm) > 0.0 && measurement.rot == RotationOf(qm);
    EdgeCosineIsExact(qa, a.t, qb, b.t, qm, measurement.t);
    TraceIsAlike(measurement.rot, MulMat(Transpose(a.rot), b.rot));
  }

  lemma RowOfIs(libm: Libm, vertices: map<int, Pose>, e: Edge)
    requires HasBoth(vertices, e)
    requires IsRead(vertices[e.source]) && IsRead(vertices[e.target]) && IsRead(e.measurement)
    ensures RowIs(libm, vertices[e.source], vertices[e.target], e, RowOf(libm, vertices, e))
  {
    var a, b := vertices[e.source], vertices[e.target];
    ReadIsRigid(a);
    ReadIsRigid(e.measurement);
    PredictedIsSeen(a, b);
    TranslationResidualIsADistance(a, b, e.measurement);
    ErrorAngle(libm, a, b, e.measurement);
  }

  ghost predicate AllRead(vertices: map<int, Pose>, edges: seq<Edge>) {
    && (forall k :: k in vertices ==> IsRead(vertices[k]))
    && (forall e :: e in edges ==> IsRead(e.measurement))
  }

  /** The rows of the report: one for each loop edge with both vertices, in file order, and each as its two
      vertices and its measurement determine it. */
  lemma RowsAreDetermined(libm: Libm, vertices: map<int, Pose>, edges: seq<Edge>, window: int)
      returns (scored: seq<nat>, lost: seq<nat>)
    requires AllRead(vertices, edges)
    ensures ArePlaces(scored, ScoredPlaces(vertices, edges, window))
    ensures ArePlaces(lost, LostPlaces(vertices, edges, window))
    ensures var report := ReportOf(libm, vertices, edges, window);
      && report.vertexCount == |vertices| && report.edgeCount == |edges|
      && |report.rows| == |scored| && report.missing == |lost|
      && forall i :: 0 <= i < |scored| ==>
           && scored[i] < |edges| && HasBoth(vertices, edges[scored[i]])
           && var e := edges[scored[i]]; RowIs(libm, vertices[e.source], vertices[e.target], e, report.rows[i])
  {
    scored, lost := RowsFollowEdges(libm, vertices, edges, window);
    var rows := ReportOf(libm, vertices, edges, window).rows;
    assert RowsAt(libm, vertices, edges, rows, scored);
    forall i | 0 <= i < |scored|
      ensures var e := edges[scored[i]];
        RowIs(libm, vertices[e.source], vertices[e.target], e, ReportOf(libm, vertices, edges, window).rows[i])
    {
      RowOfIs(libm, vertices, edges[scored[i]]);
    }
  }

  /** What is used of the square root and of the arc cosine. */
  ghost predicate LibmLaws(libm: Libm) {
    && (forall x :: x >= 0.0 ==> (libm.sqrt(x) == 0.0 <==> x == 0.0))
    && (forall c :: -1.0 <= c <= 1.0 ==> (libm.acosDeg(c) == 0.0 <==> c == 1.0))
  }

  /** A row is zero exactly when the second vertex is the first one moved by the measurement. */
  lemma ZeroRowMeansSatisfied(libm: Libm, a: Pose, b: Pose, e: Edge, row: Row)
    requires LibmLaws(libm) && IsRead(a) && IsRead(b) && IsRead(e.measurement) && RowIs(libm, a, b, e, row)
    ensures row.translationResidual == 0.0 && row.rotationResidual == 0.0 <==> b == Compose(a, e.measurement)
  {
    ReadIsRigid(a);
    ReadIsRigid(b);
    ReadIsRigid(e.measurement);
    PredictedIsSeen(a, b);
    TranslationResidualIsADistance(a, b, e.measurement);
    ErrorAngle(libm, a, b, e.measurement);
    ZeroResidualMeansSatisfied(a, b, e.measurement);
    NotNegative(Sub(SeenFrom(a, b.t), e.measurement.t));
  }

  lemma NotNegative(v: Vec)
    ensures NormSq(v) >= 0.0
  {
    SquareIsPositive(v.x);
    SquareIsPositive(v.y);
    SquareIsPositive(v.z);
  }

  // ---------- the summaries ----------

  /** The mean is the mean, the maximum is attained and bounds all; both are absent exactly without values. */
  ghost predicate SummaryIs(s: Summary, xs: seq<real>) {
    && (s.mean.Some? <==> xs != []) && (s.max.Some? <==> xs != [])
    && (xs != [] ==>
          && Times(s.mean.value, |xs| as real) == Sum(xs)
          && s.max.value in xs && forall x :: x in xs ==> x <= s.max.value)
  }

  lemma SummariseIs(xs: seq<real>)
    ensures SummaryIs(Summarise(xs), xs)
  {
    if xs != [] {
      ExtremesBound(xs);
      assert Times(Sum(xs) / |xs| as real, |xs| as real) == Sum(xs);
    }
  }

  lemma SummariesAre(libm: Libm, vertices: map<int, Pose>, edges: seq<Edge>, window: int,
                     translations: seq<real>, rotations: seq<real>)
    requires var rows := ReportOf(libm, vertices, edges, window).rows;
      && |translations| == |rotations| == |rows|
      && forall i :: 0 <= i < |rows| ==>
           translations[i] == rows[i].translationResidual && rotations[i] == rows[i].rotationResidual
    ensures var report := ReportOf(libm, vertices, edges, window);
      SummaryIs(report.translation, translations) && SummaryIs(report.rotation, rotations)
  {
    var rows := ReportOf(libm, vertices, edges, window).rows;
    assert translations == Translations(rows) && rotations == Rotations(rows);
    SummariseIs(translations);
    SummariseIs(rotations);
  }
}
