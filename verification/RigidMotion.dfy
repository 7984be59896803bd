/** Quaternions, rotation matrices and rigid poses, over exact reals.

    `quaternion_matrix` and `quat_to_rot` divide the quaternion by its norm before filling the matrix.
    Every entry is quadratic in the quaternion, so dividing each product by the squared norm is the
    same thing, and needs no square root. */
module RigidMotion {
  import opened Reals

  datatype Vec = Vec(x: real, y: real, z: real)
  datatype Quat = Quat(x: real, y: real, z: real, w: real)
  datatype Mat = Mat(row0: Vec, row1: Vec, row2: Vec)
  datatype Pose = Pose(rot: Mat, t: Vec)

  const IDENTITY := Mat(Vec(1.0, 0.0, 0.0), Vec(0.0, 1.0, 0.0), Vec(0.0, 0.0, 1.0))
  const ZERO := Vec(0.0, 0.0, 0.0)
  const UNIT_POSE := Pose(IDENTITY, ZERO)

  // ---------- vectors and matrices ----------

  function Dot(u: Vec, v: Vec): real { u.x * v.x + u.y * v.y + u.z * v.z }
  function NormSq(v: Vec): real { Dot(v, v) }
  function Add(u: Vec, v: Vec): Vec { Vec(u.x + v.x, u.y + v.y, u.z + v.z) }
  function Sub(u: Vec, v: Vec): Vec { Vec(u.x - v.x, u.y - v.y, u.z - v.z) }
  function Scale(k: real, v: Vec): Vec { Vec(Times(k, v.x), Times(k, v.y), Times(k, v.z)) }
  function Cross(u: Vec, v: Vec): Vec {
    Vec(u.y * v.z - u.z * v.y, u.z * v.x - u.x * v.z, u.x * v.y - u.y * v.x)
  }

  function Transpose(m: Mat): Mat {
    Mat(Vec(m.row0.x, m.row1.x, m.row2.x), Vec(m.row0.y, m.row1.y, m.row2.y), Vec(m.row0.z, m.row1.z, m.row2.z))
  }

  function MulVec(m: Mat, v: Vec): Vec { Vec(Dot(m.row0, v), Dot(m.row1, v), Dot(m.row2, v)) }

  function MulMat(m: Mat, n: Mat): Mat {
    var t := Transpose(n);
    Mat(MulVec(t, m.row0), MulVec(t, m.row1), MulVec(t, m.row2))
  }

  function Trace(m: Mat): real { m.row0.x + m.row1.y + m.row2.z }

  function ScaleMat(k: real, m: Mat): Mat { Mat(Scale(k, m.row0), Scale(k, m.row1), Scale(k, m.row2)) }

  lemma DotTranspose(ux: real, uy: real, uz: real,
      m1: real, m2: real, m3: real, m4: real, m5: real, m6: real, m7: real, m8: real, m9: real,
      vx: real, vy: real, vz: real)
    ensures ux * (m1 * vx + m2 * vy + m3 * vz) + uy * (m4 * vx + m5 * vy + m6 * vz) + uz * (m7 * vx + m8 * vy + m9 * vz)
         == (m1 * ux + m4 * uy + m7 * uz) * vx + (m2 * ux + m5 * uy + m8 * uz) * vy + (m3 * ux + m6 * uy + m9 * uz) * vz
  {
  }

  /** A matrix moves across a dot product as its transpose. */
  lemma TransposeMovesAcross(u: Vec, m: Mat, v: Vec)
    ensures Dot(u, MulVec(m, v)) == Dot(MulVec(Transpose(m), u), v)
  {
    DotTranspose(u.x, u.y, u.z, m.row0.x, m.row0.y, m.row0.z, m.row1.x, m.row1.y, m.row1.z, m.row2.x, m.row2.y, m.row2.z,
      v.x, v.y, v.z);
  }

  /** The matrix product acts as one rotation after the other. */
  lemma MulMatActs(m: Mat, n: Mat, v: Vec)
    ensures MulVec(MulMat(m, n), v) == MulVec(m, MulVec(n, v))
  {
    TransposeMovesAcross(m.row0, n, v);
    TransposeMovesAcross(m.row1, n, v);
    TransposeMovesAcross(m.row2, n, v);
  }

  lemma MulMatAssociative(a: Mat, b: Mat, c: Mat)
    ensures MulMat(MulMat(a, b), c) == MulMat(a, MulMat(b, c))
  {
    TransposeProduct(b, c);
    MulMatActs(Transpose(c), Transpose(b), a.row0);
    MulMatActs(Transpose(c), Transpose(b), a.row1);
    MulMatActs(Transpose(c), Transpose(b), a.row2);
  }

  lemma TransposeProduct(m: Mat, n: Mat)
    ensures Transpose(MulMat(m, n)) == MulMat(Transpose(n), Transpose(m))
  {
  }

  lemma MulVecLinear(m: Mat, u: Vec, v: Vec)
    ensures MulVec(m, Add(u, v)) == Add(MulVec(m, u), MulVec(m, v))
    ensures MulVec(m, Sub(u, v)) == Sub(MulVec(m, u), MulVec(m, v))
  {
    DotLinear(m.row0, u, v);
    DotLinear(m.row1, u, v);
    DotLinear(m.row2, u, v);
  }

  lemma DotLinear(m: Vec, u: Vec, v: Vec)
    ensures Dot(m, Add(u, v)) == Dot(m, u) + Dot(m, v)
    ensures Dot(m, Sub(u, v)) == Dot(m, u) - Dot(m, v)
  {
  }

  lemma IdentityMatrix(m: Mat, v: Vec)
    ensures MulMat(m, IDENTITY) == m && MulMat(IDENTITY, m) == m
    ensures MulVec(IDENTITY, v) == v
  {
  }

  // ---------- rigid poses ----------

  /** Applying b takes back what a does to any vector. */
  ghost predicate Undoes(b: Mat, a: Mat) { forall v :: MulVec(b, MulVec(a, v)) == v }

  lemma UndoesExactly(b: Mat, a: Mat)
    ensures Undoes(b, a) <==> MulMat(b, a) == IDENTITY
  {
    var p := MulMat(b, a);
    if p == IDENTITY {
      forall v ensures MulVec(b, MulVec(a, v)) == v {
        MulMatActs(b, a, v);
        IdentityMatrix(p, v);
      }
    }
    if Undoes(b, a) {
      var x, y, z := Vec(1.0, 0.0, 0.0), Vec(0.0, 1.0, 0.0), Vec(0.0, 0.0, 1.0);
      MulMatActs(b, a, x);
      MulMatActs(b, a, y);
      MulMatActs(b, a, z);
      Columns(p);
    }
  }

  lemma Columns(m: Mat)
    ensures MulVec(m, Vec(1.0, 0.0, 0.0)) == Vec(m.row0.x, m.row1.x, m.row2.x)
    ensures MulVec(m, Vec(0.0, 1.0, 0.0)) == Vec(m.row0.y, m.row1.y, m.row2.y)
    ensures MulVec(m, Vec(0.0, 0.0, 1.0)) == Vec(m.row0.z, m.row1.z, m.row2.z)
  {
  }

  /** The transpose inverts the matrix on both sides. */
  ghost predicate IsRotation(m: Mat) { Undoes(Transpose(m), m) && Undoes(m, Transpose(m)) }

  /** That is, the matrix is orthonormal. */
  lemma RotationExactly(m: Mat)
    ensures IsRotation(m) <==> MulMat(Transpose(m), m) == IDENTITY && MulMat(m, Transpose(m)) == IDENTITY
    ensures IsRotation(m) ==> IsRotation(Transpose(m))
  {
    UndoesExactly(Transpose(m), m);
    UndoesExactly(m, Transpose(m));
    assert Transpose(Transpose(m)) == m;
  }

  ghost predicate IsRigid(p: Pose) { IsRotation(p.rot) }

  /** The product of the 4x4 matrices [rot t; 0 1]. */
  function Compose(p: Pose, q: Pose): Pose {
    Pose(MulMat(p.rot, q.rot), Add(MulVec(p.rot, q.t), p.t))
  }

  /** `np.linalg.inv` on a rigid pose matrix. */
  function Inverse(p: Pose): Pose {
    var r := Transpose(p.rot);
    Pose(r, Sub(ZERO, MulVec(r, p.t)))
  }

  lemma RotationKeepsDot(m: Mat, u: Vec, v: Vec)
    requires IsRotation(m)
    ensures Dot(MulVec(m, u), MulVec(m, v)) == Dot(u, v)
  {
    TransposeMovesAcross(MulVec(m, u), m, v);
    assert MulVec(Transpose(m), MulVec(m, u)) == u;
  }

  lemma RotationsCompose(m: Mat, n: Mat)
    requires IsRotation(m) && IsRotation(n)
    ensures IsRotation(MulMat(m, n))
  {
    RotationExactly(m);
    RotationExactly(n);
    RotationExactly(MulMat(m, n));
    TransposeProduct(m, n);
    CancelInside(Transpose(n), Transpose(m), m, n);
    CancelInside(m, n, Transpose(n), Transpose(m));
  }

  lemma CancelInside(a: Mat, b: Mat, c: Mat, d: Mat)
    requires MulMat(b, c) == IDENTITY
    ensures MulMat(MulMat(a, b), MulMat(c, d)) == MulMat(a, d)
  {
    MulMatAssociative(MulMat(a, b), c, d);
    MulMatAssociative(a, b, c);
    IdentityMatrix(a, ZERO);
  }

  lemma ComposeAssociative(p: Pose, q: Pose, r: Pose)
    ensures Compose(Compose(p, q), r) == Compose(p, Compose(q, r))
  {
    MulMatAssociative(p.rot, q.rot, r.rot);
    MulMatActs(p.rot, q.rot, r.t);
    MulVecLinear(p.rot, MulVec(q.rot, r.t), q.t);
  }

  lemma UnitPose(p: Pose)
    ensures Compose(p, UNIT_POSE) == p && Compose(UNIT_POSE, p) == p
  {
    IdentityMatrix(p.rot, p.t);
  }

  /** The rigid inverse is two-sided, and rigid. */
  lemma InverseInverts(p: Pose)
    requires IsRigid(p)
    ensures Compose(p, Inverse(p)) == UNIT_POSE && Compose(Inverse(p), p) == UNIT_POSE
    ensures IsRigid(Inverse(p))
  {
    var r := Transpose(p.rot);
    var back := MulVec(r, p.t);
    RotationExactly(p.rot);
    assert MulVec(p.rot, back) == p.t;
    MulVecLinear(p.rot, ZERO, back);
    assert MulVec(p.rot, ZERO) == ZERO;
  }

  /** It is the only inverse, so it is what a general matrix inversion returns. */
  lemma InverseIsUnique(p: Pose, q: Pose)
    requires IsRigid(p) && (Compose(p, q) == UNIT_POSE || Compose(q, p) == UNIT_POSE)
    ensures q == Inverse(p)
  {
    InverseInverts(p);
    UnitPose(q);
    UnitPose(Inverse(p));
    if Compose(p, q) == UNIT_POSE {
      ComposeAssociative(Inverse(p), p, q);
    } else {
      ComposeAssociative(q, p, Inverse(p));
    }
  }

  lemma PosesCompose(p: Pose, q: Pose)
    requires IsRigid(p) && IsRigid(q)
    ensures IsRigid(Compose(p, q))
    ensures Inverse(Compose(p, q)) == Compose(Inverse(q), Inverse(p))
  {
    RotationsCompose(p.rot, q.rot);
    InverseInverts(p);
    InverseInverts(q);
    var back := Compose(Inverse(q), Inverse(p));
    ComposeAssociative(Compose(p, q), Inverse(q), Inverse(p));
    ComposeAssociative(p, q, Inverse(q));
    UnitPose(p);
    assert Compose(Compose(p, q), back) == UNIT_POSE;
    InverseIsUnique(Compose(p, q), back);
  }

  // ---------- quaternions ----------

  // The formulas are stated on components, and the quaternion functions apply them.

  function SumOfSquares(x: real, y: real, z: real, w: real): real { x * x + y * y + z * z + w * w }

  /** `_quat_multiply`: the Hamilton product. */
  function Hamilton(ax: real, ay: real, az: real, aw: real, bx: real, bY: real, bz: real, bw: real): Quat {
    Quat(
      aw * bx + ax * bw + ay * bz - az * bY,
      aw * bY - ax * bz + ay * bw + az * bx,
      aw * bz + ax * bY - ay * bx + az * bw,
      aw * bw - ax * bx - ay * bY - az * bz)
  }

  /** The entries `quaternion_matrix` and `quat_to_rot` fill in, s standing for 2 / |q|^2. */
  function RotationEntries(s: real, x: real, y: real, z: real, w: real): Mat {
    Mat(
      Vec(1.0 - Times(s, y * y + z * z), Times(s, x * y - z * w), Times(s, x * z + y * w)),
      Vec(Times(s, x * y + z * w), 1.0 - Times(s, x * x + z * z), Times(s, y * z - x * w)),
      Vec(Times(s, x * z - y * w), Times(s, y * z + x * w), 1.0 - Times(s, x * x + y * y)))
  }

  function QuatNormSq(q: Quat): real { SumOfSquares(q.x, q.y, q.z, q.w) }

  predicate IsUnit(q: Quat) { QuatNormSq(q) == 1.0 }

  function Conjugate(q: Quat): Quat { Quat(-q.x, -q.y, -q.z, q.w) }

  function Negate(q: Quat): Quat { Quat(-q.x, -q.y, -q.z, -q.w) }

  function QuatMul(a: Quat, b: Quat): Quat { Hamilton(a.x, a.y, a.z, a.w, b.x, b.y, b.z, b.w) }

  /** `quaternion_matrix` and `quat_to_rot` after the zero-norm check. */
  function RotationOf(q: Quat): Mat
    requires QuatNormSq(q) > 0.0
  {
    RotationEntries(2.0 / QuatNormSq(q), q.x, q.y, q.z, q.w)
  }

  datatype MatResult = Matrix(m: Mat) | ZeroNorm

  function QuaternionMatrix(q: Quat): MatResult {
    if QuatNormSq(q) <= 0.0 then ZeroNorm else Matrix(RotationOf(q))
  }

  /** `_quat_rotate`, one row. */
  function QuatRotate(q: Quat, v: Vec): Vec {
    var u := Vec(q.x, q.y, q.z);
    var t := Scale(2.0, Cross(u, v));
    Add(Add(v, Scale(q.w, t)), Cross(u, t))
  }

  // ---------- the homomorphism ----------

  // Three quadratic forms make up the matrix before the division by the squared norm; all nine
  // entries are these with the axes renamed cyclically.
  function Square(x: real, y: real, z: real, w: real): real { w * w + x * x - y * y - z * z }
  function Minus(x: real, y: real, z: real, w: real): real { 2.0 * (x * y - z * w) }
  function Plus(x: real, y: real, z: real, w: real): real { 2.0 * (x * y + z * w) }

  function Forms(x: real, y: real, z: real, w: real): Mat {
    Mat(
      Vec(Square(x, y, z, w), Minus(x, y, z, w), Plus(z, x, y, w)),
      Vec(Plus(x, y, z, w), Square(y, z, x, w), Minus(y, z, x, w)),
      Vec(Minus(z, x, y, w), Plus(y, z, x, w), Square(z, x, y, w)))
  }

  function Quadratic(q: Quat): Mat { Forms(q.x, q.y, q.z, q.w) }

  // In the next lemmas r is 1 / |q|^2 and s is 2 r.

  lemma ScaledSquare(s: real, r: real, x: real, y: real, z: real, w: real)
    requires r * SumOfSquares(x, y, z, w) == 1.0 && s == 2.0 * r
    ensures 1.0 - Times(s, y * y + z * z) == Times(r, Square(x, y, z, w))
  {
    var n, t := SumOfSquares(x, y, z, w), y * y + z * z;
    assert r * (n - 2.0 * t) == r * n - 2.0 * (r * t);
    assert Square(x, y, z, w) == n - 2.0 * t;
  }

  lemma ScaledMixed(s: real, r: real, x: real, y: real, z: real, w: real)
    requires s == 2.0 * r
    ensures Times(s, x * y - z * w) == Times(r, Minus(x, y, z, w))
    ensures Times(s, x * z + y * w) == Times(r, Plus(z, x, y, w))
  {
  }

  lemma ScaledRow(s: real, r: real, x: real, y: real, z: real, w: real)
    requires r * SumOfSquares(x, y, z, w) == 1.0 && s == 2.0 * r
    ensures RotationEntries(s, x, y, z, w).row0 == Scale(r, Forms(x, y, z, w).row0)
  {
    ScaledSquare(s, r, x, y, z, w);
    ScaledMixed(s, r, x, y, z, w);
  }

  lemma TurnEntries(s: real, x: real, y: real, z: real, w: real)
    ensures RotationEntries(s, y, z, x, w) == TurnMat(RotationEntries(s, x, y, z, w))
    ensures SumOfSquares(y, z, x, w) == SumOfSquares(x, y, z, w)
  {
  }

  lemma ScaledForms(n: real, x: real, y: real, z: real, w: real)
    requires n == SumOfSquares(x, y, z, w) > 0.0
    ensures RotationEntries(2.0 / n, x, y, z, w) == ScaleMat(1.0 / n, Forms(x, y, z, w))
  {
    var s, r := 2.0 / n, 1.0 / n;
    TurnEntries(s, x, y, z, w);
    TurnEntries(s, y, z, x, w);
    TurnForms(x, y, z, w);
    TurnForms(y, z, x, w);
    ScaledRow(s, r, x, y, z, w);
    ScaledRow(s, r, y, z, x, w);
    ScaledRow(s, r, z, x, y, w);
    SameRows(RotationEntries(s, x, y, z, w), ScaleMat(r, Forms(x, y, z, w)));
  }

  lemma FirstRowOfProduct(x: real, y: real, z: real, w: real, a: real, b: real, c: real, d: real)
    ensures var r := Hamilton(x, y, z, w, a, b, c, d);
      Forms(r.x, r.y, r.z, r.w).row0 == MulMat(Forms(x, y, z, w), Forms(a, b, c, d)).row0
  {
    FirstEntry(x, y, z, w, a, b, c, d);
    SecondEntry(x, y, z, w, a, b, c, d);
    ThirdEntry(x, y, z, w, a, b, c, d);
  }

  lemma FirstEntry(x: real, y: real, z: real, w: real, a: real, b: real, c: real, d: real)
    ensures Square(w * a + x * d + y * c - z * b, w * b - x * c + y * d + z * a,
                   w * c + x * b - y * a + z * d, w * d - x * a - y * b - z * c) ==
      Dot(Vec(Square(a, b, c, d), Plus(a, b, c, d), Minus(c, a, b, d)),
          Vec(Square(x, y, z, w), Minus(x, y, z, w), Plus(z, x, y, w)))
  {
  }

  lemma SecondEntry(x: real, y: real, z: real, w: real, a: real, b: real, c: real, d: real)
    ensures Minus(w * a + x * d + y * c - z * b, w * b - x * c + y * d + z * a,
                  w * c + x * b - y * a + z * d, w * d - x * a - y * b - z * c) ==
      Dot(Vec(Minus(a, b, c, d), Square(b, c, a, d), Plus(b, c, a, d)),
          Vec(Square(x, y, z, w), Minus(x, y, z, w), Plus(z, x, y, w)))
  {
  }

  lemma ThirdEntry(x: real, y: real, z: real, w: real, a: real, b: real, c: real, d: real)
    ensures Plus(w * c + x * b - y * a + z * d, w * a + x * d + y * c - z * b,
                 w * b - x * c + y * d + z * a, w * d - x * a - y * b - z * c) ==
      Dot(Vec(Plus(c, a, b, d), Minus(b, c, a, d), Square(c, a, b, d)),
          Vec(Square(x, y, z, w), Minus(x, y, z, w), Plus(z, x, y, w)))
  {
  }

  /** The axes renamed cyclically, x to y to z to x. */
  function TurnVec(v: Vec): Vec { Vec(v.y, v.z, v.x) }
  function TurnMat(m: Mat): Mat { Mat(TurnVec(m.row1), TurnVec(m.row2), TurnVec(m.row0)) }

  lemma TurnMulMat(m: Mat, n: Mat)
    ensures TurnMat(MulMat(m, n)) == MulMat(TurnMat(m), TurnMat(n))
  {
  }

  lemma TurnForms(x: real, y: real, z: real, w: real)
    ensures Forms(y, z, x, w) == TurnMat(Forms(x, y, z, w))
  {
  }

  lemma TurnHamilton(x: real, y: real, z: real, w: real, a: real, b: real, c: real, d: real)
    ensures var r := Hamilton(x, y, z, w, a, b, c, d);
      Hamilton(y, z, x, w, b, c, a, d) == Quat(r.y, r.z, r.x, r.w)
  {
  }

  lemma FormsHomomorphism(x: real, y: real, z: real, w: real, a: real, b: real, c: real, d: real)
    ensures var r := Hamilton(x, y, z, w, a, b, c, d);
      Forms(r.x, r.y, r.z, r.w) == MulMat(Forms(x, y, z, w), Forms(a, b, c, d))
  {
    var r := Hamilton(x, y, z, w, a, b, c, d);
    var m, n := Forms(x, y, z, w), Forms(a, b, c, d);
    FirstRowOfProduct(x, y, z, w, a, b, c, d);
    FirstRowOfProduct(y, z, x, w, b, c, a, d);
    FirstRowOfProduct(z, x, y, w, c, a, b, d);
    TurnHamilton(x, y, z, w, a, b, c, d);
    TurnHamilton(y, z, x, w, b, c, a, d);
    TurnForms(r.x, r.y, r.z, r.w);
    TurnForms(r.y, r.z, r.x, r.w);
    TurnForms(x, y, z, w);
    TurnForms(y, z, x, w);
    TurnForms(a, b, c, d);
    TurnForms(b, c, a, d);
    TurnMulMat(m, n);
    TurnMulMat(TurnMat(m), TurnMat(n));
    SameRows(Forms(r.x, r.y, r.z, r.w), MulMat(m, n));
  }

  /** Two matrices are equal when their first rows agree however the axes are turned. */
  lemma SameRows(m: Mat, n: Mat)
    requires m.row0 == n.row0 && TurnMat(m).row0 == TurnMat(n).row0
    requires TurnMat(TurnMat(m)).row0 == TurnMat(TurnMat(n)).row0
    ensures m == n
  {
  }

  lemma ScaleMatProduct(k: real, l: real, m: Mat, n: Mat)
    ensures MulMat(ScaleMat(k, m), ScaleMat(l, n)) == ScaleMat(Times(k, l), MulMat(m, n))
  {
    var t := Transpose(n);
    ScaledDots(k, l, m.row0, t);
    ScaledDots(k, l, m.row1, t);
    ScaledDots(k, l, m.row2, t);
    assert Transpose(ScaleMat(l, n)) == ScaleMat(l, t);
  }

  lemma ScaledDots(k: real, l: real, v: Vec, t: Mat)
    ensures MulVec(ScaleMat(l, t), Scale(k, v)) == Scale(Times(k, l), MulVec(t, v))
  {
    ScaledDot(k, l, t.row0, v);
    ScaledDot(k, l, t.row1, v);
    ScaledDot(k, l, t.row2, v);
  }

  lemma ScaledDot(k: real, l: real, u: Vec, v: Vec)
    ensures Dot(Scale(l, u), Scale(k, v)) == Times(Times(k, l), Dot(u, v))
  {
    ScaledProducts(k, l, u.x, v.x, u.y, v.y, u.z, v.z);
  }

  lemma ScaledProducts(k: real, l: real, a: real, b: real, c: real, d: real, e: real, f: real)
    ensures (l * a) * (k * b) + (l * c) * (k * d) + (l * e) * (k * f) == (k * l) * (a * b + c * d + e * f)
  {
  }

  lemma ReciprocalOfProduct(a: real, b: real)
    requires a > 0.0 && b > 0.0
    ensures a * b > 0.0 && 1.0 / (a * b) == Times(1.0 / a, 1.0 / b)
  {
    var r, s := 1.0 / a, 1.0 / b;
    assert r * a == 1.0 && s * b == 1.0;
    assert (r * s) * (a * b) == (r * a) * (s * b);
  }

  /** Norms multiply. */
  lemma NormMultiplies(p: Quat, q: Quat)
    ensures QuatNormSq(QuatMul(p, q)) == QuatNormSq(p) * QuatNormSq(q)
  {
    FourSquares(p.x, p.y, p.z, p.w, q.x, q.y, q.z, q.w);
  }

  lemma FourSquares(x: real, y: real, z: real, w: real, a: real, b: real, c: real, d: real)
    ensures SumOfSquares(w * a + x * d + y * c - z * b, w * b - x * c + y * d + z * a,
                         w * c + x * b - y * a + z * d, w * d - x * a - y * b - z * c) ==
      SumOfSquares(x, y, z, w) * SumOfSquares(a, b, c, d)
  {
  }

  /** The matrix of a product is the product of the matrices. */
  lemma RotationHomomorphism(p: Quat, q: Quat)
    requires QuatNormSq(p) > 0.0 && QuatNormSq(q) > 0.0
    ensures QuatNormSq(QuatMul(p, q)) > 0.0
    ensures RotationOf(QuatMul(p, q)) == MulMat(RotationOf(p), RotationOf(q))
  {
    var r := QuatMul(p, q);
    NormMultiplies(p, q);
    ReciprocalOfProduct(QuatNormSq(p), QuatNormSq(q));
    ScaledForms(QuatNormSq(p), p.x, p.y, p.z, p.w);
    ScaledForms(QuatNormSq(q), q.x, q.y, q.z, q.w);
    ScaledForms(QuatNormSq(r), r.x, r.y, r.z, r.w);
    FormsHomomorphism(p.x, p.y, p.z, p.w, q.x, q.y, q.z, q.w);
    ScaleMatProduct(1.0 / QuatNormSq(p), 1.0 / QuatNormSq(q), Quadratic(p), Quadratic(q));
  }

  lemma ConjugateTransposes(q: Quat)
    requires QuatNormSq(q) > 0.0
    ensures QuatNormSq(Conjugate(q)) == QuatNormSq(q)
    ensures RotationOf(Conjugate(q)) == Transpose(RotationOf(q))
  {
    ConjugateEntries(2.0 / QuatNormSq(q), q.x, q.y, q.z, q.w);
  }

  lemma ConjugateEntries(s: real, x: real, y: real, z: real, w: real)
    ensures SumOfSquares(-x, -y, -z, w) == SumOfSquares(x, y, z, w)
    ensures RotationEntries(s, -x, -y, -z, w) == Transpose(RotationEntries(s, x, y, z, w))
  {
  }

  /** The conjugate is the inverse, up to the squared norm. */
  lemma ConjugateCancels(q: Quat)
    ensures QuatMul(q, Conjugate(q)) == Quat(0.0, 0.0, 0.0, QuatNormSq(q))
    ensures QuatMul(Conjugate(q), q) == Quat(0.0, 0.0, 0.0, QuatNormSq(q))
  {
    ConjugateProducts(q.x, q.y, q.z, q.w);
  }

  lemma ConjugateProducts(x: real, y: real, z: real, w: real)
    ensures Hamilton(x, y, z, w, -x, -y, -z, w) == Quat(0.0, 0.0, 0.0, SumOfSquares(x, y, z, w))
    ensures Hamilton(-x, -y, -z, w, x, y, z, w) == Quat(0.0, 0.0, 0.0, SumOfSquares(x, y, z, w))
  {
  }

  lemma ScalarRotatesNothing(k: real)
    requires k > 0.0
    ensures SumOfSquares(0.0, 0.0, 0.0, k) == k * k > 0.0
    ensures forall s :: RotationEntries(s, 0.0, 0.0, 0.0, k) == IDENTITY
  {
  }

  /** Every quaternion that passes the zero-norm check gives a rotation. */
  lemma RotationIsOrthonormal(q: Quat)
    requires QuatNormSq(q) > 0.0
    ensures IsRotation(RotationOf(q))
  {
    RotationExactly(RotationOf(q));
    ConjugateTransposes(q);
    ConjugateCancels(q);
    RotationHomomorphism(q, Conjugate(q));
    RotationHomomorphism(Conjugate(q), q);
    ScalarRotatesNothing(QuatNormSq(q));
  }

  /** (trace - 1) / 2 is 2 w^2 / |q|^2 - 1, a cosine: the clip never changes it. */
  lemma TraceIsCosine(q: Quat)
    requires QuatNormSq(q) > 0.0
    ensures (Trace(RotationOf(q)) - 1.0) * 0.5 == 2.0 * (q.w * q.w / QuatNormSq(q)) - 1.0
    ensures -1.0 <= (Trace(RotationOf(q)) - 1.0) * 0.5 <= 1.0
  {
    CosineShare(QuatNormSq(q), q.x, q.y, q.z, q.w);
  }

  lemma CosineShare(n: real, x: real, y: real, z: real, w: real)
    requires n == SumOfSquares(x, y, z, w) > 0.0
    ensures (Trace(RotationEntries(2.0 / n, x, y, z, w)) - 1.0) * 0.5 == 2.0 * (w * w / n) - 1.0
    ensures 0.0 <= w * w / n <= 1.0
  {
    var r := 1.0 / n;
    TraceOfEntries(2.0 / n, x, y, z, w);
    Shares(r, n, w * w, x * x + y * y + z * z);
    assert 2.0 / n == 2.0 * r && w * w / n == r * (w * w);
  }

  lemma TraceOfEntries(s: real, x: real, y: real, z: real, w: real)
    ensures Trace(RotationEntries(s, x, y, z, w)) == 3.0 - 2.0 * (s * (x * x + y * y + z * z))
  {
  }

  lemma Shares(r: real, n: real, part: real, rest: real)
    requires r * n == 1.0 && n == part + rest && n > 0.0 && part >= 0.0 && rest >= 0.0
    ensures r * part + r * rest == 1.0 && 0.0 <= r * part && 0.0 <= r * rest
  {
    assert r > 0.0;
  }
}
