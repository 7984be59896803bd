/** The local-frame offset of a trajectory (scripts/apply_tum_frame_offset.py), and the agreement of the
    three rotation formulas the scripts carry. */
module FrameOffset {
  import opened Sequences
  import opened Options
  import opened Reals
  import opened RigidMotion

  // ---------- three ways to rotate a vector ----------

  /** What a rotation adds to the first component, before scaling; the others by turning the axes. */
  function Swing(x: real, y: real, z: real, w: real, vx: real, vy: real, vz: real): real {
    (x * y - z * w) * vy + (x * z + y * w) * vz - (y * y + z * z) * vx
  }

  function SwingVec(q: Quat, v: Vec): Vec {
    Vec(Swing(q.x, q.y, q.z, q.w, v.x, v.y, v.z), Swing(q.y, q.z, q.x, q.w, v.y, v.z, v.x),
        Swing(q.z, q.x, q.y, q.w, v.z, v.x, v.y))
  }

  lemma SwingRow(s: real, x: real, y: real, z: real, w: real, vx: real, vy: real, vz: real)
    ensures Dot(Vec(1.0 - Times(s, y * y + z * z), Times(s, x * y - z * w), Times(s, x * z + y * w)), Vec(vx, vy, vz)) ==
      vx + Times(s, Swing(x, y, z, w, vx, vy, vz))
  {
  }

  lemma FirstComponentSwings(s: real, x: real, y: real, z: real, w: real, v: Vec)
    ensures Dot(RotationEntries(s, x, y, z, w).row0, v) == v.x + Times(s, Swing(x, y, z, w, v.x, v.y, v.z))
  {
    SwingRow(s, x, y, z, w, v.x, v.y, v.z);
  }

  lemma MatrixSwings(s: real, q: Quat, v: Vec)
    ensures MulVec(RotationEntries(s, q.x, q.y, q.z, q.w), v) == Add(v, Scale(s, SwingVec(q, v)))
  {
    FirstComponentSwings(s, q.x, q.y, q.z, q.w, v);
    FirstComponentSwings(s, q.y, q.z, q.x, q.w, TurnVec(v));
    FirstComponentSwings(s, q.z, q.x, q.y, q.w, TurnVec(TurnVec(v)));
    TurnEntries(s, q.x, q.y, q.z, q.w);
    TurnEntries(s, q.y, q.z, q.x, q.w);
    TurnMulVec(RotationEntries(s, q.x, q.y, q.z, q.w), v);
  }

  lemma TurnMulVec(m: Mat, v: Vec)
    ensures MulVec(m, v) ==
      Vec(Dot(m.row0, v), Dot(TurnMat(m).row0, TurnVec(v)), Dot(TurnMat(TurnMat(m)).row0, TurnVec(TurnVec(v))))
  {
    DotTurns(m.row1, v);
    DotTurns(m.row2, v);
  }

  lemma DotTurns(u: Vec, v: Vec)
    ensures Dot(TurnVec(u), TurnVec(v)) == Dot(u, v)
    ensures Dot(TurnVec(TurnVec(u)), TurnVec(TurnVec(v))) == Dot(u, v)
  {
  }

  lemma CrossProducts(u: Vec, v: Vec)
    ensures Cross(u, v) == Vec(Times(u.y, v.z) - Times(u.z, v.y), Times(u.z, v.x) - Times(u.x, v.z),
                               Times(u.x, v.y) - Times(u.y, v.x))
  {
  }

  lemma SwingParts(x: real, y: real, z: real, w: real, vx: real, vy: real, vz: real)
    ensures Times(w, 2.0 * (Times(y, vz) - Times(z, vy))) +
      (Times(y, 2.0 * (Times(x, vy) - Times(y, vx))) - Times(z, 2.0 * (Times(z, vx) - Times(x, vz)))) ==
      2.0 * Swing(x, y, z, w, vx, vy, vz)
  {
    assert w * (2.0 * (y * vz - z * vy)) + (y * (2.0 * (x * vy - y * vx)) - z * (2.0 * (z * vx - x * vz))) ==
      2.0 * ((x * y - z * w) * vy + (x * z + y * w) * vz - (y * y + z * z) * vx);
  }

  lemma QuatRotateSwings(q: Quat, v: Vec)
    ensures QuatRotate(q, v) == Add(v, Scale(2.0, SwingVec(q, v)))
  {
    var u := Vec(q.x, q.y, q.z);
    var t := Scale(2.0, Cross(u, v));
    CrossProducts(u, v);
    CrossProducts(u, t);
    SwingParts(q.x, q.y, q.z, q.w, v.x, v.y, v.z);
    SwingParts(q.y, q.z, q.x, q.w, v.y, v.z, v.x);
    SwingParts(q.z, q.x, q.y, q.w, v.z, v.x, v.y);
    assert t.x == 2.0 * (Times(u.y, v.z) - Times(u.z, v.y));
    assert t.y == 2.0 * (Times(u.z, v.x) - Times(u.x, v.z));
    assert t.z == 2.0 * (Times(u.x, v.y) - Times(u.y, v.x));
  }

  /** `_quat_rotate` on a unit quaternion is multiplication by `quaternion_matrix` (or `quat_to_rot`). */
  lemma RotationsAgree(q: Quat, v: Vec)
    requires IsUnit(q)
    ensures QuatRotate(q, v) == MulVec(RotationOf(q), v)
  {
    MatrixSwings(2.0, q, v);
    QuatRotateSwings(q, v);
  }

  /** `_quat_rotate` does not normalise: off the unit sphere it agrees with the matrix on every vector
      only for quaternions without a vector part. */
  lemma RotationsAgreeExactlyWhenUnit(q: Quat)
    requires QuatNormSq(q) > 0.0
    ensures (forall v :: QuatRotate(q, v) == MulVec(RotationOf(q), v)) <==>
            IsUnit(q) || (q.x == 0.0 && q.y == 0.0 && q.z == 0.0)
  {
    if IsUnit(q) {
      forall v ensures QuatRotate(q, v) == MulVec(RotationOf(q), v) {
        RotationsAgree(q, v);
      }
    } else {
      var s := 2.0 / QuatNormSq(q);
      assert s != 2.0 by { assert s * QuatNormSq(q) == 2.0; }
      forall v ensures QuatRotate(q, v) == MulVec(RotationOf(q), v) <==> SwingVec(q, v) == ZERO {
        MatrixSwings(s, q, v);
        QuatRotateSwings(q, v);
        ScalesDiffer(s, v, SwingVec(q, v));
      }
      NoSwingMeansScalar(q);
    }
  }

  lemma ScalesDiffer(s: real, v: Vec, d: Vec)
    requires s != 2.0
    ensures Add(v, Scale(2.0, d)) == Add(v, Scale(s, d)) <==> d == ZERO
  {
    CancelFactor(s, d.x);
    CancelFactor(s, d.y);
    CancelFactor(s, d.z);
  }

  lemma CancelFactor(s: real, a: real)
    requires s != 2.0
    ensures Times(s, a) == Times(2.0, a) <==> a == 0.0
  {
    var k := s - 2.0;
    assert Times(s, a) - Times(2.0, a) == k * a;
    assert (k * a) / k == a;
  }

  lemma NoSwingMeansScalar(q: Quat)
    ensures (forall v :: SwingVec(q, v) == ZERO) <==> q.x == 0.0 && q.y == 0.0 && q.z == 0.0
  {
    var e, f := Vec(1.0, 0.0, 0.0), Vec(0.0, 1.0, 0.0);
    assert SwingVec(q, e).x == -(q.y * q.y) - q.z * q.z;
    assert SwingVec(q, f).y == -(q.z * q.z) - q.x * q.x;
    TwoSquares(q.y, q.z);
    TwoSquares(q.z, q.x);
    if q.x == 0.0 && q.y == 0.0 && q.z == 0.0 {
      forall v ensures SwingVec(q, v) == ZERO {
        NoVectorNoSwing(q.w, v.x, v.y, v.z);
      }
    }
  }

  lemma NoVectorNoSwing(w: real, vx: real, vy: real, vz: real)
    ensures Swing(0.0, 0.0, 0.0, w, vx, vy, vz) == Swing(0.0, 0.0, 0.0, w, vy, vz, vx) == 0.0
    ensures Swing(0.0, 0.0, 0.0, w, vz, vx, vy) == 0.0
  {
  }

  lemma TwoSquares(a: real, b: real)
    ensures -(a * a) - b * b == 0.0 ==> a == 0.0 && b == 0.0
  {
    SquareSign(a);
    SquareSign(b);
  }

  // ---------- the offset step ----------

  datatype TumPose = TumPose(stamp: string, position: Vec, orientation: Quat)
  datatype Line = Blank | Invalid | Entry(pose: TumPose)

  /** A written line; without a position, all three coordinates are NaN. */
  datatype OutLine = OutLine(stamp: string, position: Option<Vec>, orientation: Quat)
  datatype Output = Written(lines: seq<OutLine>) | InvalidLine(index: nat)

  function Offset(p: TumPose, offset: Vec): TumPose
    requires QuatNormSq(p.orientation) > 0.0
  {
    p.(position := Add(p.position, MulVec(RotationOf(p.orientation), offset)))
  }

  function OutLineOf(p: TumPose, offset: Vec): OutLine {
    OutLine(p.stamp, if QuatNormSq(p.orientation) > 0.0 then Some(Offset(p, offset).position) else None, p.orientation)
  }

  /** A position is lost exactly where the orientation is the zero quaternion. */
  lemma PositionLostExactly(p: TumPose, offset: Vec)
    ensures OutLineOf(p, offset).position == None <==> p.orientation == Quat(0.0, 0.0, 0.0, 0.0)
  {
    var q := p.orientation;
    SquareSign(q.x);
    SquareSign(q.y);
    SquareSign(q.z);
    SquareSign(q.w);
  }

  lemma SquareSign(a: real)
    ensures a * a >= 0.0 && (a * a == 0.0 <==> a == 0.0)
  {
    if a != 0.0 { assert (a * a) / a == a; }
  }

  /** The poses of a file without invalid lines. */
  function Entries(lines: seq<Line>): seq<TumPose> {
    if lines == [] then []
    else
      var last := lines[|lines| - 1];
      Entries(lines[..|lines| - 1]) + if last.Entry? then [last.pose] else []
  }

  /** A written line told from the pose read: stamp and orientation are its own, and the position is that of the
      pose followed by the offset in its own frame, hence exactly the offset's length away from the one read. */
  ghost predicate IsMoved(line: OutLine, p: TumPose, offset: Vec) {
    && line.stamp == p.stamp && line.orientation == p.orientation
    && (line.position.Some? <==> p.orientation != Quat(0.0, 0.0, 0.0, 0.0))
    && (QuatNormSq(p.orientation) > 0.0 ==>
          && line.position.Some?
          && line.position.value == Compose(Pose(RotationOf(p.orientation), p.position), Pose(IDENTITY, offset)).t
          && NormSq(Sub(line.position.value, p.position)) == NormSq(offset))
  }

  lemma OutLineIsMoved(p: TumPose, offset: Vec)
    ensures IsMoved(OutLineOf(p, offset), p, offset)
  {
    PositionLostExactly(p, offset);
    if QuatNormSq(p.orientation) > 0.0 {
      OffsetMovesByItsLength(p, offset);
      OffsetCommutesWithTheMapFrame(UNIT_POSE, p, offset);
    }
  }

  /** Turned back into the pose's frame, the step taken is the offset. */
  lemma StepInOwnFrameIsTheOffset(p: TumPose, offset: Vec)
    requires QuatNormSq(p.orientation) > 0.0
    ensures var line := OutLineOf(p, offset);
      line.position.Some?
      && MulVec(Transpose(RotationOf(p.orientation)), Sub(line.position.value, p.position)) == offset
  {
    var m := RotationOf(p.orientation);
    RotationIsOrthonormal(p.orientation);
    assert Sub(Add(p.position, MulVec(m, offset)), p.position) == MulVec(m, offset);
  }

  /** The lines that hold a pose. */
  ghost function EntryPlaces(lines: seq<Line>): set<nat> { set n: nat | n < |lines| && lines[n].Entry? }

  lemma {:induction false} EntriesFollowLines(lines: seq<Line>) returns (places: seq<nat>)
    ensures ArePlaces(places, EntryPlaces(lines)) && |places| == |Entries(lines)|
    ensures forall i :: 0 <= i < |places| ==> places[i] < |lines| && lines[places[i]] == Entry(Entries(lines)[i])
  {
    hide EntryPlaces;
    places := [];
    if lines == [] {
      NoEntries();
    } else {
      var n := |lines| - 1;
      places := EntriesFollowLines(lines[..n]);
      LastEntry(lines);
      if lines[n].Entry? {
        PlacesGrow(places, EntryPlaces(lines[..n]), n);
        places := places + [n];
      }
    }
  }

  lemma NoEntries()
    ensures EntryPlaces([]) == {}
  {
  }

  lemma LastEntry(lines: seq<Line>)
    requires lines != []
    ensures var n := |lines| - 1;
      EntryPlaces(lines) == if lines[n].Entry? then EntryPlaces(lines[..n]) + {n} else EntryPlaces(lines[..n])
  {
  }

  /** The written lines, told from the lines read: one for each pose, in file order, each moved. */
  lemma WrittenLinesAreMoved(lines: seq<Line>, offset: Vec, out: seq<OutLine>) returns (places: seq<nat>)
    requires |out| == |Entries(lines)| && forall i :: 0 <= i < |out| ==> out[i] == OutLineOf(Entries(lines)[i], offset)
    ensures ArePlaces(places, EntryPlaces(lines)) && |out| == |places|
    ensures forall i :: 0 <= i < |out| ==>
      places[i] < |lines| && lines[places[i]].Entry? && IsMoved(out[i], lines[places[i]].pose, offset)
  {
    places := EntriesFollowLines(lines);
    forall i | 0 <= i < |out| ensures IsMoved(out[i], lines[places[i]].pose, offset) {
      OutLineIsMoved(Entries(lines)[i], offset);
    }
  }

  /** One output line per pose, moved by its own rotated offset, unless some line is invalid. */
  method OffsetTrajectory(lines: seq<Line>, offset: Vec) returns (output: Output)
    ensures output.Written? <==> Invalid !in lines
    ensures output.InvalidLine? ==>
      output.index < |lines| && lines[output.index] == Invalid && Invalid !in lines[..output.index]
    ensures output.Written? ==> |output.lines| == |Entries(lines)|
    ensures output.Written? ==> forall i :: 0 <= i < |output.lines| ==>
      output.lines[i] == OutLineOf(Entries(lines)[i], offset) && IsMoved(output.lines[i], Entries(lines)[i], offset)
  {
    var out: seq<OutLine> := [];
    for n := 0 to |lines|
      invariant Invalid !in lines[..n]
      invariant |out| == |Entries(lines[..n])|
      invariant forall i :: 0 <= i < |out| ==> out[i] == OutLineOf(Entries(lines[..n])[i], offset)
    {
      var line := lines[n];
      assert lines[..n + 1] == lines[..n] + [line] && lines[..n + 1][..n] == lines[..n];
      match line
      case Blank =>
      case Invalid => return InvalidLine(n);
      case Entry(p) => out := out + [OutLineOf(p, offset)];
    }
    assert lines[..|lines|] == lines;
    forall i | 0 <= i < |out| ensures IsMoved(out[i], Entries(lines)[i], offset) {
      OutLineIsMoved(Entries(lines)[i], offset);
    }
    return Written(out);
  }

  /** A pose moves by exactly the length of the offset and keeps its stamp and orientation. */
  lemma OffsetMovesByItsLength(p: TumPose, offset: Vec)
    requires QuatNormSq(p.orientation) > 0.0
    ensures NormSq(Sub(Offset(p, offset).position, p.position)) == NormSq(offset)
    ensures Offset(p, offset).orientation == p.orientation && Offset(p, offset).stamp == p.stamp
  {
    var m := RotationOf(p.orientation);
    RotationIsOrthonormal(p.orientation);
    RotationKeepsDot(m, offset, offset);
    assert Sub(Add(p.position, MulVec(m, offset)), p.position) == MulVec(m, offset);
  }

  /** Offsets compose additively; in particular an offset is undone by its negative. */
  lemma OffsetsAdd(p: TumPose, a: Vec, b: Vec)
    requires QuatNormSq(p.orientation) > 0.0
    ensures Offset(Offset(p, a), b) == Offset(p, Add(a, b))
    ensures Offset(Offset(p, a), Sub(ZERO, a)) == p
  {
    var m := RotationOf(p.orientation);
    MulVecLinear(m, a, b);
    MulVecLinear(m, a, Sub(ZERO, a));
    assert Add(a, Sub(ZERO, a)) == ZERO && MulVec(m, ZERO) == ZERO;
  }

  /** The offset is a translation applied in the pose's own frame, so changing the map frame first or
      afterwards gives the same positions. */
  lemma OffsetCommutesWithTheMapFrame(g: Pose, p: TumPose, offset: Vec)
    requires QuatNormSq(p.orientation) > 0.0
    ensures var pose := Pose(RotationOf(p.orientation), p.position);
      var moved := Pose(RotationOf(p.orientation), Offset(p, offset).position);
      moved == Compose(pose, Pose(IDENTITY, offset)) &&
      Compose(Compose(g, pose), Pose(IDENTITY, offset)) == Compose(g, moved)
  {
    var pose := Pose(RotationOf(p.orientation), p.position);
    IdentityMatrix(pose.rot, offset);
    ComposeAssociative(g, pose, Pose(IDENTITY, offset));
  }
}
