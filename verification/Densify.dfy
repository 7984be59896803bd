/** Map-frame orientations at the frontend's rate (scripts/check_map_gravity_alignment.py).

    Sine, cosine, arc cosine and square root are parameters; `TrigLaws` lists all that is used of them. */
module Densify {
  import opened Sequences
  import opened Reals
  import opened RigidMotion
  import opened StampSearch

  datatype Sample = Sample(stamp: real, position: Vec, q: Quat)

  datatype Trig = Trig(sin: real -> real, cos: real -> real, acos: real -> real, sqrt: real -> real)

  predicate SqrtLaw(t: Trig, x: real) { x >= 0.0 ==> t.sqrt(x) >= 0.0 && t.sqrt(x) * t.sqrt(x) == x }

  predicate ArcLaw(t: Trig, c: real) { -1.0 <= c <= 1.0 ==> t.cos(t.acos(c)) == c }

  predicate CircleLaw(t: Trig, a: real) { Times(t.sin(a), t.sin(a)) + Times(t.cos(a), t.cos(a)) == 1.0 }

  predicate SumLaws(t: Trig, a: real, b: real) {
    && t.sin(a + b) == Times(t.sin(a), t.cos(b)) + Times(t.cos(a), t.sin(b))
    && t.cos(a + b) == Times(t.cos(a), t.cos(b)) - Times(t.sin(a), t.sin(b))
  }

  ghost predicate TrigLaws(t: Trig) {
    && t.sin(0.0) == 0.0
    && (forall x :: SqrtLaw(t, x))
    && (forall c :: ArcLaw(t, c))
    && (forall a :: CircleLaw(t, a))
    && (forall a, b :: SumLaws(t, a, b))
  }

  // ---------- quaternion algebra ----------

  const ONE := Quat(0.0, 0.0, 0.0, 1.0)

  lemma HamiltonAssociative(ax: real, ay: real, az: real, aw: real, bx: real, b2: real, bz: real, bw: real,
                            cx: real, cy: real, cz: real, cw: real)
    ensures
      var X, Y := aw * bx + ax * bw + ay * bz - az * b2, aw * b2 - ax * bz + ay * bw + az * bx;
      var Z, W := aw * bz + ax * b2 - ay * bx + az * bw, aw * bw - ax * bx - ay * b2 - az * bz;
      var P, Q := bw * cx + bx * cw + b2 * cz - bz * cy, bw * cy - bx * cz + b2 * cw + bz * cx;
      var R, S := bw * cz + bx * cy - b2 * cx + bz * cw, bw * cw - bx * cx - b2 * cy - bz * cz;
      Hamilton(X, Y, Z, W, cx, cy, cz, cw) == Hamilton(ax, ay, az, aw, P, Q, R, S)
  {
  }

  lemma HamiltonNests(ax: real, ay: real, az: real, aw: real, bx: real, b2: real, bz: real, bw: real,
                      cx: real, cy: real, cz: real, cw: real)
    ensures
      var p, q := Hamilton(ax, ay, az, aw, bx, b2, bz, bw), Hamilton(bx, b2, bz, bw, cx, cy, cz, cw);
      Hamilton(p.x, p.y, p.z, p.w, cx, cy, cz, cw) == Hamilton(ax, ay, az, aw, q.x, q.y, q.z, q.w)
  {
    HamiltonAssociative(ax, ay, az, aw, bx, b2, bz, bw, cx, cy, cz, cw);
  }

  lemma QuatMulAssociative(a: Quat, b: Quat, c: Quat)
    ensures QuatMul(QuatMul(a, b), c) == QuatMul(a, QuatMul(b, c))
  {
    HamiltonNests(a.x, a.y, a.z, a.w, b.x, b.y, b.z, b.w, c.x, c.y, c.z, c.w);
  }

  lemma OneIsNeutral(q: Quat)
    ensures QuatMul(q, ONE) == q && QuatMul(ONE, q) == q
  {
  }

  lemma NegateMovesOut(a: Quat, b: Quat)
    ensures QuatMul(Negate(a), b) == Negate(QuatMul(a, b)) && QuatMul(a, Negate(b)) == Negate(QuatMul(a, b))
    ensures Conjugate(Negate(a)) == Negate(Conjugate(a)) && Negate(Negate(a)) == a
    ensures QuatNormSq(Negate(a)) == QuatNormSq(a)
  {
    NegateHamilton(a.x, a.y, a.z, a.w, b.x, b.y, b.z, b.w);
  }

  lemma NegateHamilton(x: real, y: real, z: real, w: real, a: real, b: real, c: real, d: real)
    ensures Hamilton(-x, -y, -z, -w, a, b, c, d) == Negate(Hamilton(x, y, z, w, a, b, c, d))
    ensures Hamilton(x, y, z, w, -a, -b, -c, -d) == Negate(Hamilton(x, y, z, w, a, b, c, d))
    ensures SumOfSquares(-x, -y, -z, -w) == SumOfSquares(x, y, z, w)
  {
  }

  lemma ConjugateProduct(a: Quat, b: Quat)
    ensures Conjugate(QuatMul(a, b)) == QuatMul(Conjugate(b), Conjugate(a))
  {
    ConjugateHamilton(a.x, a.y, a.z, a.w, b.x, b.y, b.z, b.w);
  }

  lemma ConjugateHamilton(x: real, y: real, z: real, w: real, a: real, b: real, c: real, d: real)
    ensures Conjugate(Hamilton(x, y, z, w, a, b, c, d)) == Hamilton(-a, -b, -c, d, -x, -y, -z, w)
  {
  }

  lemma UnitProducts(a: Quat, b: Quat)
    requires IsUnit(a) && IsUnit(b)
    ensures IsUnit(QuatMul(a, b)) && IsUnit(Conjugate(a))
    ensures QuatMul(a, Conjugate(a)) == ONE && QuatMul(Conjugate(a), a) == ONE
  {
    NormMultiplies(a, b);
    ConjugateTransposes(a);
    ConjugateCancels(a);
  }

  // ---------- _slerp ----------

  function QuatDot(a: Quat, b: Quat): real { a.x * b.x + a.y * b.y + a.z * b.z + a.w * b.w }

  function Combine(u: real, a: Quat, v: real, b: Quat): Quat {
    Quat(Times(u, a.x) + Times(v, b.x), Times(u, a.y) + Times(v, b.y),
         Times(u, a.z) + Times(v, b.z), Times(u, a.w) + Times(v, b.w))
  }

  function ClipIndex(i: int, lo: int, hi: int): int { if i < lo then lo else if i > hi then hi else i }

  function Normalised(t: Trig, q: Quat): Quat {
    var n := t.sqrt(QuatNormSq(q));
    if n == 0.0 then q else Combine(1.0 / n, q, 0.0, q)
  }

  function Stamps(s: seq<Sample>): seq<real> {
    seq(|s|, i requires 0 <= i < |s| => s[i].stamp)
  }

  function Index(times: seq<real>, query: real): int {
    ClipIndex(InsertionLeft(times, query) - 1, 0, |times| - 2)
  }

  function Fraction(t0: real, t1: real, query: real): real {
    if t1 > t0 then (query - t0) / (t1 - t0) else 0.0
  }

  /** The weights of the two quaternions, from the angle between them and the fraction. */
  function Weights(t: Trig, angle: real, f: real): (real, real) {
    var s := t.sin(angle);
    if s < 0.000001 then (1.0 - f, f) else (t.sin(Times(1.0 - f, angle)) / s, t.sin(Times(f, angle)) / s)
  }

  function Blend(t: Trig, a: Quat, b: Quat, f: real): Quat {
    var d := QuatDot(a, b);
    var b' := if d < 0.0 then Negate(b) else b;
    var (u, v) := Weights(t, t.acos(Clip(Abs(d), -1.0, 1.0)), f);
    Normalised(t, Combine(u, a, v, b'))
  }

  function Slerp(t: Trig, samples: seq<Sample>, query: real): Quat
    requires |samples| >= 2
  {
    var i := Index(Stamps(samples), query);
    Blend(t, samples[i].q, samples[i + 1].q, Fraction(samples[i].stamp, samples[i + 1].stamp, query))
  }

  /** The product with a conjugate carries the dot product, so for unit quaternions it stays within [-1, 1]. */
  lemma DotOfUnits(a: Quat, b: Quat)
    requires IsUnit(a) && IsUnit(b)
    ensures -1.0 <= QuatDot(a, b) <= 1.0
  {
    var r := QuatMul(Conjugate(a), b);
    UnitProducts(a, b);
    UnitProducts(Conjugate(a), b);
    DotInProduct(a.x, a.y, a.z, a.w, b.x, b.y, b.z, b.w);
    assert r.w == QuatDot(a, b);
    LastOfUnit(r.x, r.y, r.z, r.w);
  }

  lemma DotInProduct(x: real, y: real, z: real, w: real, a: real, b: real, c: real, d: real)
    ensures Hamilton(-x, -y, -z, w, a, b, c, d).w == x * a + y * b + z * c + w * d
  {
  }

  lemma LastOfUnit(x: real, y: real, z: real, w: real)
    requires SumOfSquares(x, y, z, w) == 1.0
    ensures -1.0 <= w <= 1.0
  {
    assert x * x >= 0.0 && y * y >= 0.0 && z * z >= 0.0 && w * w <= 1.0;
    assert w > 1.0 ==> w * w > 1.0;
    assert w < -1.0 ==> w * w > 1.0;
  }

  lemma CombinedNorm(u: real, a: Quat, v: real, b: Quat)
    requires IsUnit(a) && IsUnit(b)
    ensures QuatNormSq(Combine(u, a, v, b)) == Times(u, u) + Times(v, v) + 2.0 * Times(Times(u, v), QuatDot(a, b))
  {
    CombinedSquares(u, v, a.x, a.y, a.z, a.w, b.x, b.y, b.z, b.w);
    assert a == Quat(a.x, a.y, a.z, a.w) && b == Quat(b.x, b.y, b.z, b.w);
  }

  lemma CombinedSquares(u: real, v: real, x: real, y: real, z: real, w: real, a: real, b: real, c: real, d: real)
    requires SumOfSquares(x, y, z, w) == SumOfSquares(a, b, c, d) == 1.0
    ensures SumOfSquares(Times(u, x) + Times(v, a), Times(u, y) + Times(v, b), Times(u, z) + Times(v, c),
                         Times(u, w) + Times(v, d)) ==
      Times(u, u) + Times(v, v) + 2.0 * Times(Times(u, v), QuatDot(Quat(x, y, z, w), Quat(a, b, c, d)))
  {
    SquaresOfSums(u, v, x, y, z, w, a, b, c, d);
    GroupUnits(Times(u, u), Times(v, v), Times(u, v), x * x, y * y, z * z, w * w, a * a, b * b, c * c, d * d,
               x * a, y * b, z * c, w * d);
  }

  lemma SquaresOfSums(u: real, v: real, x: real, y: real, z: real, w: real, a: real, b: real, c: real, d: real)
    ensures SumOfSquares(Times(u, x) + Times(v, a), Times(u, y) + Times(v, b), Times(u, z) + Times(v, c),
                         Times(u, w) + Times(v, d)) ==
      (Times(Times(u, u), x * x) + Times(Times(u, u), y * y) + Times(Times(u, u), z * z) + Times(Times(u, u), w * w)) +
      (Times(Times(v, v), a * a) + Times(Times(v, v), b * b) + Times(Times(v, v), c * c) + Times(Times(v, v), d * d)) +
      2.0 * (Times(Times(u, v), x * a) + Times(Times(u, v), y * b) + Times(Times(u, v), z * c) + Times(Times(u, v), w * d))
  {
    SquareOfSum(u, v, x, a);
    SquareOfSum(u, v, y, b);
    SquareOfSum(u, v, z, c);
    SquareOfSum(u, v, w, d);
    SumsOfSquares(Times(u, x) + Times(v, a), Times(u, y) + Times(v, b), Times(u, z) + Times(v, c), Times(u, w) + Times(v, d));
  }

  lemma SumsOfSquares(x: real, y: real, z: real, w: real)
    ensures SumOfSquares(x, y, z, w) == Times(x, x) + Times(y, y) + Times(z, z) + Times(w, w)
  {
  }

  lemma SquareOfSum(u: real, v: real, x: real, a: real)
    ensures Times(Times(u, x) + Times(v, a), Times(u, x) + Times(v, a)) ==
      Times(Times(u, u), x * x) + Times(Times(v, v), a * a) + 2.0 * Times(Times(u, v), x * a)
  {
    assert (u * x + v * a) * (u * x + v * a) == (u * u) * (x * x) + (v * v) * (a * a) + 2.0 * ((u * v) * (x * a));
  }

  lemma GroupUnits(
      k: real, l: real, m: real, p: real, q: real, r: real, s: real, p': real, q': real, r': real, s': real,
      e: real, f: real, g: real, h: real)
    requires p + q + r + s == p' + q' + r' + s' == 1.0
    ensures (Times(k, p) + Times(k, q) + Times(k, r) + Times(k, s)) +
      (Times(l, p') + Times(l, q') + Times(l, r') + Times(l, s')) +
      2.0 * (Times(m, e) + Times(m, f) + Times(m, g) + Times(m, h)) == k + l + 2.0 * Times(m, e + f + g + h)
  {
    FactorOut(k, p, q, r, s);
    FactorOut(l, p', q', r', s');
    FactorOut(m, e, f, g, h);
  }

  lemma FactorOut(k: real, p: real, q: real, r: real, s: real)
    ensures Times(k, p) + Times(k, q) + Times(k, r) + Times(k, s) == Times(k, p + q + r + s)
  {
  }

  /** The weights always blend unit quaternions into a nonzero one; outside the small-angle branch the
      result is already unit. */
  lemma BlendNormPositive(t: Trig, d: real, f: real)
    requires TrigLaws(t) && 0.0 <= d <= 1.0
    ensures var (u, v) := Weights(t, t.acos(d), f);
      && Times(u, u) + Times(v, v) + 2.0 * Times(Times(u, v), d) > 0.0
      && (t.sin(t.acos(d)) >= 0.000001 ==> Times(u, u) + Times(v, v) + 2.0 * Times(Times(u, v), d) == 1.0)
  {
    var angle := t.acos(d);
    var s := t.sin(angle);
    if s < 0.000001 {
      ChordNorm(f, d);
    } else {
      SinesOfParts(t, d, angle, f);
      ArcNorm(t.sin(Times(1.0 - f, angle)), t.sin(Times(f, angle)), s, d);
    }
  }

  lemma SinesOfParts(t: Trig, d: real, angle: real, f: real)
    requires TrigLaws(t) && 0.0 <= d <= 1.0 && angle == t.acos(d)
    ensures var p, q, s := t.sin(Times(1.0 - f, angle)), t.sin(Times(f, angle)), t.sin(angle);
      Times(p, p) + Times(q, q) + 2.0 * Times(Times(p, q), d) == Times(s, s)
  {
    PartsAddUp(f, angle);
    var a, b := Times(1.0 - f, angle), Times(f, angle);
    assert ArcLaw(t, d) && SumLaws(t, a, b) && CircleLaw(t, a) && CircleLaw(t, b);
    PartsOfTheCircle(t.sin(a), t.cos(a), t.sin(b), t.cos(b));
  }

  /** Two points of the unit circle and the sum of their angles. */
  lemma PartsOfTheCircle(p: real, c: real, q: real, e: real)
    requires Times(p, p) + Times(c, c) == 1.0 && Times(q, q) + Times(e, e) == 1.0
    ensures var s, d := Times(p, e) + Times(c, q), Times(c, e) - Times(p, q);
      && p + Times(q, d) == Times(s, e)
      && q + Times(p, d) == Times(s, c)
      && Times(p, p) + Times(q, q) + 2.0 * Times(Times(p, q), d) == Times(s, s)
  {
    FirstPart(p, c, q, e);
    FirstPart(q, e, p, c);
    var s, d := Times(p, e) + Times(c, q), Times(c, e) - Times(p, q);
    SquareOfParts(p, q, d, s, e, c);
  }

  lemma FirstPart(p: real, c: real, q: real, e: real)
    requires Times(q, q) + Times(e, e) == 1.0
    ensures p + Times(q, Times(c, e) - Times(p, q)) == Times(Times(p, e) + Times(c, q), e)
  {
    assert q * (c * e - p * q) == q * c * e - p * (q * q);
    assert q * q == 1.0 - e * e;
    assert p * (1.0 - e * e) == p - p * (e * e);
    assert (p * e + c * q) * e == p * (e * e) + q * c * e;
  }

  lemma SquareOfParts(p: real, q: real, d: real, s: real, e: real, c: real)
    requires p + Times(q, d) == Times(s, e) && q + Times(p, d) == Times(s, c) && s == Times(p, e) + Times(c, q)
    ensures Times(p, p) + Times(q, q) + 2.0 * Times(Times(p, q), d) == Times(s, s)
  {
    SquareFromSides(p, q, d, Times(s, e), Times(s, c));
    SidesToSquare(p, q, s, e, c);
  }

  lemma SquareFromSides(p: real, q: real, d: real, x: real, y: real)
    requires p + Times(q, d) == x && q + Times(p, d) == y
    ensures Times(p, p) + Times(q, q) + 2.0 * Times(Times(p, q), d) == Times(p, x) + Times(q, y)
  {
    assert p * (p + q * d) == p * p + (p * q) * d;
    assert q * (q + p * d) == q * q + (p * q) * d;
  }

  lemma SidesToSquare(p: real, q: real, s: real, e: real, c: real)
    requires s == Times(p, e) + Times(c, q)
    ensures Times(p, Times(s, e)) + Times(q, Times(s, c)) == Times(s, s)
  {
    assert p * (s * e) + q * (s * c) == s * (p * e + c * q);
  }

  lemma PartsAddUp(f: real, angle: real)
    ensures Times(1.0 - f, angle) + Times(f, angle) == angle
  {
  }

  lemma ChordNorm(f: real, d: real)
    requires 0.0 <= d <= 1.0
    ensures Times(1.0 - f, 1.0 - f) + Times(f, f) + 2.0 * Times(Times(1.0 - f, f), d) > 0.0
  {
    var g := f * (1.0 - f);
    assert g <= 0.25 by { assert (f - 0.5) * (f - 0.5) >= 0.0; }
    assert (1.0 - f) * (1.0 - f) + f * f == 1.0 - 2.0 * g;
    if g >= 0.0 {
      assert g * d >= 0.0;
    } else {
      assert (-g) * d <= -g;
    }
    assert Times(Times(1.0 - f, f), d) == g * d;
  }

  lemma ArcNorm(p: real, q: real, s: real, d: real)
    requires s > 0.0 && Times(p, p) + Times(q, q) + 2.0 * Times(Times(p, q), d) == Times(s, s)
    ensures Times(p / s, p / s) + Times(q / s, q / s) + 2.0 * Times(Times(p / s, q / s), d) == 1.0
  {
    var r := 1.0 / s;
    assert p / s == p * r && q / s == q * r && s * r == 1.0;
    assert (p * r) * (p * r) + (q * r) * (q * r) + 2.0 * (((p * r) * (q * r)) * d) ==
      (r * r) * (p * p + q * q + 2.0 * (p * q * d));
    assert (r * r) * (s * s) == (s * r) * (s * r);
  }

  lemma NormalisedIsUnit(t: Trig, q: Quat)
    requires TrigLaws(t) && QuatNormSq(q) > 0.0
    ensures IsUnit(Normalised(t, q))
  {
    var n := t.sqrt(QuatNormSq(q));
    assert SqrtLaw(t, QuatNormSq(q));
    assert n * n == QuatNormSq(q) && n != 0.0;
    var r := 1.0 / n;
    assert r * n == 1.0;
    ScaledSum(r, n, q.x, q.y, q.z, q.w);
  }

  lemma ScaledSum(r: real, n: real, x: real, y: real, z: real, w: real)
    requires r * n == 1.0 && n * n == SumOfSquares(x, y, z, w)
    ensures SumOfSquares(Times(r, x) + Times(0.0, x), Times(r, y) + Times(0.0, y), Times(r, z) + Times(0.0, z),
                         Times(r, w) + Times(0.0, w)) == 1.0
  {
    assert (r * x) * (r * x) + (r * y) * (r * y) + (r * z) * (r * z) + (r * w) * (r * w) == (r * r) * (n * n);
    assert (r * r) * (n * n) == (r * n) * (r * n);
  }

  /** Interpolating unit quaternions gives a unit quaternion at every query time, inside the span or not. */
  lemma BlendIsUnit(t: Trig, a: Quat, b: Quat, f: real)
    requires TrigLaws(t) && IsUnit(a) && IsUnit(b)
    ensures IsUnit(Blend(t, a, b, f))
  {
    var d := QuatDot(a, b);
    var b' := if d < 0.0 then Negate(b) else b;
    NegateMovesOut(b, a);
    DotOfUnits(a, b);
    NegateDot(a, b);
    assert QuatDot(a, b') == Abs(d) == Clip(Abs(d), -1.0, 1.0);
    var (u, v) := Weights(t, t.acos(Abs(d)), f);
    BlendNormPositive(t, Abs(d), f);
    CombinedNorm(u, a, v, b');
    NormalisedIsUnit(t, Combine(u, a, v, b'));
  }

  lemma NegateDot(a: Quat, b: Quat)
    ensures QuatDot(a, Negate(b)) == -QuatDot(a, b)
  {
  }

  /** At fraction 0 the blend is the first quaternion, at fraction 1 the second up to the sign chosen
      for the shorter way round. */
  lemma BlendAtEnds(t: Trig, a: Quat, b: Quat)
    requires TrigLaws(t) && IsUnit(a) && IsUnit(b)
    ensures Blend(t, a, b, 0.0) == a
    ensures Blend(t, a, b, 1.0) == if QuatDot(a, b) < 0.0 then Negate(b) else b
  {
    var d := QuatDot(a, b);
    var b' := if d < 0.0 then Negate(b) else b;
    var angle := t.acos(Clip(Abs(d), -1.0, 1.0));
    EndWeights(t, angle);
    assert Combine(1.0, a, 0.0, b') == a && Combine(0.0, a, 1.0, b') == b';
    NegateMovesOut(b, a);
    UnitIsNormalised(t, a);
    UnitIsNormalised(t, b');
  }

  lemma EndWeights(t: Trig, angle: real)
    requires TrigLaws(t)
    ensures Weights(t, angle, 0.0) == (1.0, 0.0) && Weights(t, angle, 1.0) == (0.0, 1.0)
  {
    var s := t.sin(angle);
    var whole, none := Times(1.0 - 0.0, angle), Times(0.0, angle);
    assert whole == angle && none == 0.0 && t.sin(whole) == s && t.sin(none) == 0.0;
    var none', whole' := Times(1.0 - 1.0, angle), Times(1.0, angle);
    assert whole' == angle && none' == 0.0 && t.sin(whole') == s && t.sin(none') == 0.0;
    if s >= 0.000001 {
      assert s / s == 1.0 && 0.0 / s == 0.0;
    }
  }

  lemma UnitIsNormalised(t: Trig, q: Quat)
    requires TrigLaws(t) && IsUnit(q)
    ensures Normalised(t, q) == q
  {
    assert SqrtLaw(t, 1.0);
    RootOfOne(t.sqrt(1.0));
  }

  lemma RootOfOne(n: real)
    requires n >= 0.0 && n * n == 1.0
    ensures n == 1.0
  {
    assert n < 1.0 ==> n * n <= n;
    assert n > 1.0 ==> n * n > n;
  }

  ghost predicate AllUnit(samples: seq<Sample>) { forall s :: s in samples ==> IsUnit(s.q) }

  /** The first row of a sequence with a given row's stamp. */
  ghost predicate FirstAtItsStamp(samples: seq<Sample>, f: nat, j: nat) {
    && f <= j < |samples| && samples[f].stamp == samples[j].stamp
    && (f == 0 || samples[f - 1].stamp < samples[f].stamp)
  }

  /** Interpolating at a sample's own stamp returns the first sample with that stamp, negated exactly
      when it lies on the far side of its predecessor. */
  lemma SlerpAtSample(t: Trig, samples: seq<Sample>, f: nat, j: nat)
    requires TrigLaws(t) && |samples| >= 2 && NonDecreasing(Stamps(samples)) && AllUnit(samples)
    requires FirstAtItsStamp(samples, f, j)
    ensures Slerp(t, samples, samples[j].stamp) ==
      if f > 0 && QuatDot(samples[f - 1].q, samples[f].q) < 0.0 then Negate(samples[f].q) else samples[f].q
  {
    var query := samples[j].stamp;
    IndexAtFirst(samples, f, j);
    if f == 0 {
      FractionAtEnds(samples[0].stamp, samples[1].stamp);
      BlendAtEnds(t, samples[0].q, samples[1].q);
    } else {
      FractionAtEnds(samples[f - 1].stamp, samples[f].stamp);
      BlendAtEnds(t, samples[f - 1].q, samples[f].q);
    }
  }

  lemma IndexAtFirst(samples: seq<Sample>, f: nat, j: nat)
    requires |samples| >= 2 && NonDecreasing(Stamps(samples)) && FirstAtItsStamp(samples, f, j)
    ensures Index(Stamps(samples), samples[j].stamp) == if f == 0 then 0 else f - 1
  {
    InsertionAtFirst(Stamps(samples), f);
  }

  lemma FractionAtEnds(t0: real, t1: real)
    ensures Fraction(t0, t1, t0) == 0.0
    ensures t0 < t1 ==> Fraction(t0, t1, t1) == 1.0
  {
    if t0 < t1 {
      var gap := t1 - t0;
      assert gap / gap == 1.0 && 0.0 / gap == 0.0;
    }
  }

  lemma InsertionAtFirst(times: seq<real>, f: nat)
    requires NonDecreasing(times) && f < |times| && (f == 0 || times[f - 1] < times[f])
    ensures InsertionLeft(times, times[f]) == f
  {
    var i := InsertionLeft(times, times[f]);
    assert i <= f;
    assert 0 < f ==> times[f - 1] < times[f];
  }

  // ---------- densify_orientations ----------

  function Inside(corrected: seq<Sample>, raw: seq<Sample>): seq<Sample>
    requires corrected != []
  {
    if raw == [] then []
    else
      var last := raw[|raw| - 1];
      Inside(corrected, raw[..|raw| - 1]) +
      if corrected[0].stamp <= last.stamp <= corrected[|corrected| - 1].stamp then [last] else []
  }

  /** The graph correction of one keyframe: its orientation times the inverse of the frontend's there. */
  function Correction(t: Trig, raw: seq<Sample>, keyframe: Sample): Quat
    requires |raw| >= 2
  {
    QuatMul(keyframe.q, Conjugate(Slerp(t, raw, keyframe.stamp)))
  }

  function CorrectedBy(correction: Quat, s: Sample): Sample { s.(q := QuatMul(correction, s.q)) }

  function KeyframeOf(corrected: seq<Sample>, stamp: real): int {
    ClipIndex(InsertionRight(Stamps(corrected), stamp) - 1, 0, |corrected| - 1)
  }

  function Corrected(t: Trig, corrected: seq<Sample>, raw: seq<Sample>, s: Sample): Sample
    requires corrected != [] && |raw| >= 2
  {
    CorrectedBy(Correction(t, raw, corrected[KeyframeOf(corrected, s.stamp)]), s)
  }

  function Dense(t: Trig, corrected: seq<Sample>, raw: seq<Sample>): seq<Sample>
    requires corrected != []
  {
    var inside := Inside(corrected, raw);
    InsideComesFromRaw(corrected, raw);
    if |inside| < 2 then corrected
    else seq(|inside|, i requires 0 <= i < |inside| => Corrected(t, corrected, raw, inside[i]))
  }

  lemma {:induction false} InsideComesFromRaw(corrected: seq<Sample>, raw: seq<Sample>)
    requires corrected != []
    ensures |Inside(corrected, raw)| <= |raw|
    ensures forall s :: s in Inside(corrected, raw) <==>
      s in raw && corrected[0].stamp <= s.stamp <= corrected[|corrected| - 1].stamp
  {
    if raw != [] {
      InsideComesFromRaw(corrected, raw[..|raw| - 1]);
      assert raw == raw[..|raw| - 1] + [raw[|raw| - 1]];
    }
  }

  /** The frontend rows inside the keyframe span, rewritten in place in a copy. */
  method DensifyOrientations(t: Trig, corrected: seq<Sample>, raw: seq<Sample>) returns (dense: seq<Sample>)
    requires corrected != []
    ensures dense == Dense(t, corrected, raw)
  {
    var inside := Inside(corrected, raw);
    InsideComesFromRaw(corrected, raw);
    if |inside| < 2 { return corrected; }
    var corrections := seq(|corrected|, i requires 0 <= i < |corrected| => Correction(t, raw, corrected[i]));
    var rows := new Sample[|inside|](i requires 0 <= i < |inside| => inside[i]);
    assert rows[..] == inside;
    ApplyCorrections(corrected, corrections, rows);
    dense := rows[..];
    CorrectedRowsAreDense(t, corrected, raw, corrections, dense);
  }

  lemma CorrectedRowsAreDense(
      t: Trig, corrected: seq<Sample>, raw: seq<Sample>, corrections: seq<Quat>, dense: seq<Sample>)
    requires corrected != [] && |Inside(corrected, raw)| >= 2 && |raw| >= 2
    requires |corrections| == |corrected| && |dense| == |Inside(corrected, raw)|
    requires forall i :: 0 <= i < |corrected| ==> corrections[i] == Correction(t, raw, corrected[i])
    requires forall k :: 0 <= k < |dense| ==>
      dense[k] == CorrectedBy(corrections[KeyframeOf(corrected, Inside(corrected, raw)[k].stamp)], Inside(corrected, raw)[k])
    ensures dense == Dense(t, corrected, raw)
  {
    hide InsertionLeft, InsertionRight;
    forall k | 0 <= k < |dense| ensures dense[k] == Corrected(t, corrected, raw, Inside(corrected, raw)[k]) {
    }
  }

  method ApplyCorrections(corrected: seq<Sample>, corrections: seq<Quat>, rows: array<Sample>)
    requires corrected != [] && |corrections| == |corrected|
    modifies rows
    ensures forall k :: 0 <= k < rows.Length ==>
      rows[k] == CorrectedBy(corrections[KeyframeOf(corrected, old(rows[k].stamp))], old(rows[k]))
  {
    hide InsertionLeft, InsertionRight;
    for i := 0 to rows.Length
      invariant forall k :: 0 <= k < i ==>
        rows[k] == CorrectedBy(corrections[KeyframeOf(corrected, old(rows[k].stamp))], old(rows[k]))
      invariant forall k :: i <= k < rows.Length ==> rows[k] == old(rows[k])
    {
      var keyframe := KeyframeOf(corrected, rows[i].stamp);
      rows[i] := CorrectedBy(corrections[keyframe], rows[i]);
    }
  }

  /** Inside the span the keyframe used is the last one at or before the stamp, and neither clip bites. */
  lemma KeyframeIsLastBefore(corrected: seq<Sample>, stamp: real)
    requires corrected != [] && NonDecreasing(Stamps(corrected))
    requires corrected[0].stamp <= stamp <= corrected[|corrected| - 1].stamp
    ensures var k := KeyframeOf(corrected, stamp);
      && k == InsertionRight(Stamps(corrected), stamp) - 1
      && 0 <= k < |corrected| && corrected[k].stamp <= stamp
      && (k + 1 < |corrected| ==> stamp < corrected[k + 1].stamp)
  {
    var times := Stamps(corrected);
    assert times[0] == corrected[0].stamp && times[|times| - 1] == corrected[|corrected| - 1].stamp;
    assert forall i :: 0 <= i < |times| ==> times[i] == corrected[i].stamp;
  }

  /** Every dense quaternion is unit. */
  lemma DenseIsUnit(t: Trig, corrected: seq<Sample>, raw: seq<Sample>)
    requires TrigLaws(t) && corrected != [] && AllUnit(corrected) && AllUnit(raw)
    ensures AllUnit(Dense(t, corrected, raw))
  {
    hide InsertionLeft, InsertionRight;
    var inside := Inside(corrected, raw);
    InsideComesFromRaw(corrected, raw);
    if |inside| >= 2 {
      forall s | s in inside ensures IsUnit(Corrected(t, corrected, raw, s).q) {
        CorrectedIsUnit(t, raw, corrected[KeyframeOf(corrected, s.stamp)], s);
      }
    }
  }

  lemma CorrectedIsUnit(t: Trig, raw: seq<Sample>, keyframe: Sample, s: Sample)
    requires TrigLaws(t) && |raw| >= 2 && AllUnit(raw) && IsUnit(keyframe.q) && IsUnit(s.q)
    ensures IsUnit(CorrectedBy(Correction(t, raw, keyframe), s).q)
  {
    CorrectionIsUnit(t, raw, keyframe);
    UnitProducts(Correction(t, raw, keyframe), s.q);
  }

  lemma CorrectionIsUnit(t: Trig, raw: seq<Sample>, keyframe: Sample)
    requires TrigLaws(t) && |raw| >= 2 && AllUnit(raw) && IsUnit(keyframe.q)
    ensures IsUnit(Correction(t, raw, keyframe))
  {
    var i := Index(Stamps(raw), keyframe.stamp);
    BlendIsUnit(t, raw[i].q, raw[i + 1].q, Fraction(raw[i].stamp, raw[i + 1].stamp, keyframe.stamp));
    var there := Slerp(t, raw, keyframe.stamp);
    UnitProducts(there, there);
    UnitProducts(keyframe.q, Conjugate(there));
  }

  ghost predicate SameUpToSign(a: Quat, b: Quat) { a == b || a == Negate(b) }

  lemma KeyframeAtItsStamp(corrected: seq<Sample>, k: nat)
    requires NonDecreasing(Stamps(corrected))
    requires k < |corrected| && (k + 1 < |corrected| ==> corrected[k].stamp < corrected[k + 1].stamp)
    ensures KeyframeOf(corrected, corrected[k].stamp) == k
  {
    var stamps := Stamps(corrected);
    assert stamps[k] == corrected[k].stamp;
    assert k + 1 < |stamps| ==> stamps[k] < stamps[k + 1];
    assert InsertionRight(stamps, stamps[k]) == k + 1;
  }

  /** At the last keyframe of a stamp: a frontend row with this stamp comes out as that keyframe, up to sign,
      exactly when its orientation is, up to sign, that of the first frontend row with the stamp. */
  lemma RowAtLastKeyframe(t: Trig, corrected: seq<Sample>, raw: seq<Sample>, k: nat, f: nat, j: nat)
    requires TrigLaws(t) && AllUnit(corrected) && AllUnit(raw) && |raw| >= 2
    requires NonDecreasing(Stamps(corrected)) && NonDecreasing(Stamps(raw))
    requires k < |corrected| && (k + 1 < |corrected| ==> corrected[k].stamp < corrected[k + 1].stamp)
    requires FirstAtItsStamp(raw, f, j) && raw[j].stamp == corrected[k].stamp
    ensures SameUpToSign(Corrected(t, corrected, raw, raw[j]).q, corrected[k].q) <==> SameUpToSign(raw[j].q, raw[f].q)
    ensures raw[j].q == raw[f].q ==>
              Corrected(t, corrected, raw, raw[j]).q ==
              if f > 0 && QuatDot(raw[f - 1].q, raw[f].q) < 0.0 then Negate(corrected[k].q) else corrected[k].q
  {
    hide KeyframeOf, Slerp;
    KeyframeAtItsStamp(corrected, k);
    SlerpAtSample(t, raw, f, j);
    CancelFrontend(corrected[k].q, raw[f].q, raw[j].q);
    NegateMovesOut(raw[f].q, raw[j].q);
    NegateMovesOut(Conjugate(raw[f].q), raw[j].q);
    NegateMovesOut(corrected[k].q, Conjugate(raw[f].q));
    NegateMovesOut(QuatMul(corrected[k].q, Conjugate(raw[f].q)), raw[j].q);
    NegateMovesOut(corrected[k].q, corrected[k].q);
    NegateMovesOut(Corrected(t, corrected, raw, raw[j]).q, raw[j].q);
  }

  /** The row at position i of the dense rows comes from a frontend row. */
  lemma DenseRow(t: Trig, corrected: seq<Sample>, raw: seq<Sample>, i: nat) returns (j: nat)
    requires corrected != [] && |Inside(corrected, raw)| >= 2 && i < |Dense(t, corrected, raw)|
    ensures i < |Inside(corrected, raw)| <= |raw| && j < |raw| && raw[j] == Inside(corrected, raw)[i]
    ensures Dense(t, corrected, raw)[i] == Corrected(t, corrected, raw, raw[j])
    ensures Dense(t, corrected, raw)[i].stamp == raw[j].stamp
  {
    var inside := Inside(corrected, raw);
    InsideComesFromRaw(corrected, raw);
    assert inside[i] in raw;
    j :| 0 <= j < |raw| && raw[j] == inside[i];
  }

  /** The frontend rows within the keyframes' span. */
  ghost function InsidePlaces(corrected: seq<Sample>, raw: seq<Sample>): set<nat>
    requires corrected != []
  {
    set n: nat | n < |raw| && corrected[0].stamp <= raw[n].stamp <= corrected[|corrected| - 1].stamp
  }

  lemma NothingInside(corrected: seq<Sample>)
    requires corrected != []
    ensures InsidePlaces(corrected, []) == {}
  {
  }

  lemma LastInside(corrected: seq<Sample>, raw: seq<Sample>)
    requires corrected != [] && raw != []
    ensures var n := |raw| - 1;
      InsidePlaces(corrected, raw) == InsidePlaces(corrected, raw[..n]) +
        if corrected[0].stamp <= raw[n].stamp <= corrected[|corrected| - 1].stamp then {n} else {}
  {
  }

  /** The rows inside are the frontend's own, in their order. */
  lemma {:induction false} InsideFollowsRaw(corrected: seq<Sample>, raw: seq<Sample>) returns (places: seq<nat>)
    requires corrected != []
    ensures ArePlaces(places, InsidePlaces(corrected, raw)) && |places| == |Inside(corrected, raw)|
    ensures forall i :: 0 <= i < |places| ==> places[i] < |raw| && Inside(corrected, raw)[i] == raw[places[i]]
  {
    hide InsidePlaces;
    places := [];
    if raw == [] {
      NothingInside(corrected);
    } else {
      var n := |raw| - 1;
      places := InsideFollowsRaw(corrected, raw[..n]);
      LastInside(corrected, raw);
      if corrected[0].stamp <= raw[n].stamp <= corrected[|corrected| - 1].stamp {
        PlacesGrow(places, InsidePlaces(corrected, raw[..n]), n);
        places := places + [n];
      }
    }
  }

  /** Only orientations change: stamps and positions stay the frontend's, row by row. */
  lemma DenseKeepsRows(t: Trig, corrected: seq<Sample>, raw: seq<Sample>)
    requires corrected != []
    ensures |Inside(corrected, raw)| < 2 ==> Dense(t, corrected, raw) == corrected
    ensures |Inside(corrected, raw)| >= 2 ==>
      && |Dense(t, corrected, raw)| == |Inside(corrected, raw)|
      && forall i :: 0 <= i < |Inside(corrected, raw)| ==>
           && Dense(t, corrected, raw)[i].stamp == Inside(corrected, raw)[i].stamp
           && Dense(t, corrected, raw)[i].position == Inside(corrected, raw)[i].position
  {
    InsideComesFromRaw(corrected, raw);
  }

  /** Frontend rows that share a keyframe's stamp have one orientation, up to sign. */
  ghost predicate RowsAgree(corrected: seq<Sample>, raw: seq<Sample>) {
    forall a, b, k ::
      0 <= a < |raw| && 0 <= b < |raw| && 0 <= k < |corrected| && raw[a].stamp == raw[b].stamp == corrected[k].stamp
      ==> SameUpToSign(raw[a].q, raw[b].q)
  }

  /** So do keyframes that share a frontend row's stamp. */
  ghost predicate KeyframesAgree(corrected: seq<Sample>, raw: seq<Sample>) {
    forall a, k, l ::
      0 <= a < |raw| && 0 <= k < |corrected| && 0 <= l < |corrected| && raw[a].stamp == corrected[k].stamp == corrected[l].stamp
      ==> SameUpToSign(corrected[k].q, corrected[l].q)
  }

  /** Keyframes that share a stamp with one another. */
  ghost predicate NamesakesAgree(corrected: seq<Sample>) {
    forall k, l :: 0 <= k < |corrected| && 0 <= l < |corrected| && corrected[k].stamp == corrected[l].stamp
      ==> SameUpToSign(corrected[k].q, corrected[l].q)
  }

  ghost predicate RowReproduces(t: Trig, corrected: seq<Sample>, raw: seq<Sample>, a: nat, k: nat)
    requires |raw| >= 2 && a < |raw| && k < |corrected|
  {
    SameUpToSign(Corrected(t, corrected, raw, raw[a]).q, corrected[k].q)
  }

  ghost predicate AllRowsReproduce(t: Trig, corrected: seq<Sample>, raw: seq<Sample>)
    requires |raw| >= 2
  {
    forall a, k :: 0 <= a < |raw| && 0 <= k < |corrected| && raw[a].stamp == corrected[k].stamp ==>
      RowReproduces(t, corrected, raw, a, k)
  }

  ghost predicate DenseReproduces(t: Trig, corrected: seq<Sample>, raw: seq<Sample>)
    requires corrected != []
  {
    var dense := Dense(t, corrected, raw);
    forall i, k :: 0 <= i < |dense| && 0 <= k < |corrected| && dense[i].stamp == corrected[k].stamp
      ==> SameUpToSign(dense[i].q, corrected[k].q)
  }

  ghost predicate Ordered(corrected: seq<Sample>, raw: seq<Sample>) {
    && corrected != [] && |raw| >= 2
    && AllUnit(corrected) && AllUnit(raw) && NonDecreasing(Stamps(corrected)) && NonDecreasing(Stamps(raw))
  }

  lemma {:induction false} FirstRow(samples: seq<Sample>, j: nat, at: nat) returns (f: nat)
    requires NonDecreasing(Stamps(samples)) && at <= j < |samples| && samples[at].stamp == samples[j].stamp
    ensures FirstAtItsStamp(samples, f, j)
    decreases at
  {
    if at > 0 && samples[at - 1].stamp == samples[at].stamp {
      f := FirstRow(samples, j, at - 1);
    } else {
      f := at;
      assert at > 0 ==> Stamps(samples)[at - 1] <= Stamps(samples)[at];
    }
  }

  lemma {:induction false} LastKeyframe(samples: seq<Sample>, k: nat) returns (l: nat)
    requires NonDecreasing(Stamps(samples)) && k < |samples|
    ensures k <= l < |samples| && samples[l].stamp == samples[k].stamp
    ensures l + 1 < |samples| ==> samples[l].stamp < samples[l + 1].stamp
    decreases |samples| - k
  {
    if k + 1 < |samples| && samples[k].stamp == samples[k + 1].stamp {
      l := LastKeyframe(samples, k + 1);
    } else {
      l := k;
      assert k + 1 < |samples| ==> Stamps(samples)[k] <= Stamps(samples)[k + 1];
    }
  }

  /** What decides a row: its first namesake among the rows, and the last keyframe at its stamp. */
  lemma RowDecided(t: Trig, corrected: seq<Sample>, raw: seq<Sample>, a: nat, k: nat) returns (f: nat, l: nat)
    requires TrigLaws(t) && Ordered(corrected, raw)
    requires a < |raw| && k < |corrected| && raw[a].stamp == corrected[k].stamp
    ensures f < |raw| && l < |corrected| && raw[f].stamp == raw[a].stamp == corrected[l].stamp
    ensures FirstAtItsStamp(raw, f, a)
    ensures RowReproduces(t, corrected, raw, a, l) <==> SameUpToSign(raw[a].q, raw[f].q)
  {
    f := FirstRow(raw, a, a);
    l := LastKeyframe(corrected, k);
    RowAtLastKeyframe(t, corrected, raw, l, f, a);
  }

  lemma SignsChain(a: Quat, b: Quat, c: Quat)
    requires SameUpToSign(a, b)
    ensures SameUpToSign(b, a)
    ensures SameUpToSign(a, c) <==> SameUpToSign(b, c)
  {
  }

  lemma AgreementReproduces(t: Trig, corrected: seq<Sample>, raw: seq<Sample>, a: nat, k: nat)
    requires TrigLaws(t) && Ordered(corrected, raw) && RowsAgree(corrected, raw) && KeyframesAgree(corrected, raw)
    requires a < |raw| && k < |corrected| && raw[a].stamp == corrected[k].stamp
    ensures RowReproduces(t, corrected, raw, a, k)
  {
    var f, l := RowDecided(t, corrected, raw, a, k);
    assert SameUpToSign(raw[a].q, raw[f].q) && SameUpToSign(corrected[l].q, corrected[k].q);
    ReproducesNamesake(t, corrected, raw, a, k, l);
  }

  lemma ReproducesNamesake(t: Trig, corrected: seq<Sample>, raw: seq<Sample>, a: nat, k: nat, l: nat)
    requires |raw| >= 2 && a < |raw| && k < |corrected| && l < |corrected|
    requires RowReproduces(t, corrected, raw, a, l)
    ensures RowReproduces(t, corrected, raw, a, k) <==> SameUpToSign(corrected[l].q, corrected[k].q)
  {
    SignsChain(Corrected(t, corrected, raw, raw[a]).q, corrected[l].q, corrected[k].q);
  }

  lemma ReproducingRowsAgree(t: Trig, corrected: seq<Sample>, raw: seq<Sample>, a: nat, b: nat, k: nat)
    requires TrigLaws(t) && Ordered(corrected, raw) && AllRowsReproduce(t, corrected, raw)
    requires a < |raw| && b < |raw| && k < |corrected| && raw[a].stamp == raw[b].stamp == corrected[k].stamp
    ensures SameUpToSign(raw[a].q, raw[b].q)
  {
    var f, l := RowDecided(t, corrected, raw, a, k);
    var f', l' := RowDecided(t, corrected, raw, b, k);
    assert RowReproduces(t, corrected, raw, a, l) && RowReproduces(t, corrected, raw, b, l');
    OneFirstRow(raw, f, a, f', b);
    SignsChain(raw[a].q, raw[f].q, raw[b].q);
    SignsChain(raw[b].q, raw[f].q, raw[a].q);
  }

  lemma OneFirstRow(samples: seq<Sample>, f: nat, j: nat, f': nat, j': nat)
    requires NonDecreasing(Stamps(samples))
    requires FirstAtItsStamp(samples, f, j) && FirstAtItsStamp(samples, f', j') && samples[j].stamp == samples[j'].stamp
    ensures f == f'
  {
    FirstIsBehindLower(samples, f, j, f');
    FirstIsBehindLower(samples, f', j', f);
  }

  lemma FirstIsBehindLower(samples: seq<Sample>, f: nat, j: nat, i: nat)
    requires NonDecreasing(Stamps(samples)) && FirstAtItsStamp(samples, f, j)
    ensures i < f ==> samples[i].stamp < samples[f].stamp
  {
    if i < f {
      var times := Stamps(samples);
      assert times[f - 1] < times[f] && times[i] == samples[i].stamp;
      assert i == f - 1 || times[i] <= times[f - 1];
    }
  }

  /** All frontend rows reproduce all keyframes at their stamps exactly when rows agree and keyframes agree. */
  lemma RowsReproduceExactly(t: Trig, corrected: seq<Sample>, raw: seq<Sample>)
    requires TrigLaws(t) && Ordered(corrected, raw)
    ensures AllRowsReproduce(t, corrected, raw) <==> RowsAgree(corrected, raw) && KeyframesAgree(corrected, raw)
  {
    if RowsAgree(corrected, raw) && KeyframesAgree(corrected, raw) {
      forall a, k | 0 <= a < |raw| && 0 <= k < |corrected| && raw[a].stamp == corrected[k].stamp
        ensures RowReproduces(t, corrected, raw, a, k)
      {
        AgreementReproduces(t, corrected, raw, a, k);
      }
    }
    if AllRowsReproduce(t, corrected, raw) {
      forall a, b, k | 0 <= a < |raw| && 0 <= b < |raw| && 0 <= k < |corrected|
        && raw[a].stamp == raw[b].stamp == corrected[k].stamp ensures SameUpToSign(raw[a].q, raw[b].q)
      {
        ReproducingRowsAgree(t, corrected, raw, a, b, k);
      }
      forall a, k, l | 0 <= a < |raw| && 0 <= k < |corrected| && 0 <= l < |corrected|
        && raw[a].stamp == corrected[k].stamp == corrected[l].stamp ensures SameUpToSign(corrected[k].q, corrected[l].q)
      {
        ReproducesNamesake(t, corrected, raw, a, l, k);
      }
    }
  }

  /** The rows outside the keyframe span share no keyframe's stamp, so they do not matter. */
  lemma DenseMeansRows(t: Trig, corrected: seq<Sample>, raw: seq<Sample>)
    requires Ordered(corrected, raw) && |Inside(corrected, raw)| >= 2
    ensures DenseReproduces(t, corrected, raw) <==> AllRowsReproduce(t, corrected, raw)
  {
    if DenseReproduces(t, corrected, raw) {
      forall a, k | 0 <= a < |raw| && 0 <= k < |corrected| && raw[a].stamp == corrected[k].stamp
        ensures RowReproduces(t, corrected, raw, a, k)
      {
        var i := RowAppears(t, corrected, raw, a, k);
      }
    }
    if AllRowsReproduce(t, corrected, raw) {
      forall i, k | 0 <= i < |Dense(t, corrected, raw)| && 0 <= k < |corrected|
        && Dense(t, corrected, raw)[i].stamp == corrected[k].stamp
        ensures SameUpToSign(Dense(t, corrected, raw)[i].q, corrected[k].q)
      {
        var j := DenseRow(t, corrected, raw, i);
        assert RowReproduces(t, corrected, raw, j, k);
      }
    }
  }

  lemma RowAppears(t: Trig, corrected: seq<Sample>, raw: seq<Sample>, a: nat, k: nat) returns (i: nat)
    requires corrected != [] && NonDecreasing(Stamps(corrected)) && |Inside(corrected, raw)| >= 2
    requires a < |raw| && k < |corrected| && raw[a].stamp == corrected[k].stamp
    ensures i < |Dense(t, corrected, raw)| && |raw| >= 2
    ensures Dense(t, corrected, raw)[i] == Corrected(t, corrected, raw, raw[a])
    ensures Dense(t, corrected, raw)[i].stamp == raw[a].stamp
  {
    var inside, times := Inside(corrected, raw), Stamps(corrected);
    InsideComesFromRaw(corrected, raw);
    assert times[0] == corrected[0].stamp && times[k] == corrected[k].stamp;
    assert times[|times| - 1] == corrected[|corrected| - 1].stamp;
    assert raw[a] in inside;
    i :| 0 <= i < |inside| && inside[i] == raw[a];
  }

  /** The dense rows reproduce every keyframe at its stamp, up to sign, exactly when the frontend rows at each
      keyframe stamp agree with one another and the keyframes at each frontend stamp agree with one another.
      With fewer than two rows inside the span the keyframes themselves are returned, and they need to agree
      wherever they share a stamp. */
  lemma DenseReproducesKeyframes(t: Trig, corrected: seq<Sample>, raw: seq<Sample>)
    requires TrigLaws(t) && corrected != [] && (|Inside(corrected, raw)| >= 2 ==> Ordered(corrected, raw))
    ensures DenseReproduces(t, corrected, raw) <==>
      if |Inside(corrected, raw)| >= 2 then RowsAgree(corrected, raw) && KeyframesAgree(corrected, raw)
      else NamesakesAgree(corrected)
  {
    if |Inside(corrected, raw)| >= 2 {
      DenseMeansRows(t, corrected, raw);
      RowsReproduceExactly(t, corrected, raw);
    } else {
      DenseKeepsRows(t, corrected, raw);
    }
  }

  /** With stamps that never repeat it always does. */
  lemma DistinctStampsReproduce(t: Trig, corrected: seq<Sample>, raw: seq<Sample>)
    requires TrigLaws(t) && corrected != [] && (|Inside(corrected, raw)| >= 2 ==> Ordered(corrected, raw))
    requires StrictlyIncreasing(Stamps(corrected)) && StrictlyIncreasing(Stamps(raw))
    ensures DenseReproduces(t, corrected, raw)
  {
    StrictMeansSame(corrected);
    StrictMeansSame(raw);
    DenseReproducesKeyframes(t, corrected, raw);
  }

  lemma StrictMeansSame(samples: seq<Sample>)
    requires StrictlyIncreasing(Stamps(samples))
    ensures forall i, j :: 0 <= i < |samples| && 0 <= j < |samples| && samples[i].stamp == samples[j].stamp ==> i == j
  {
    var times := Stamps(samples);
    forall i, j | 0 <= i < |samples| && 0 <= j < |samples| && samples[i].stamp == samples[j].stamp ensures i == j {
      assert times[i] == times[j];
    }
  }

  const HALF_TURN := Quat(1.0, 0.0, 0.0, 0.0)

  function AtOrigin(stamp: real, q: Quat): Sample { Sample(stamp, Vec(0.0, 0.0, 0.0), q) }

  /** A repeated frontend stamp can break it: the second row at stamp 0 comes out half a turn off. */
  lemma RepeatedStampBreaksIt(t: Trig, corrected: seq<Sample>, raw: seq<Sample>)
    requires TrigLaws(t)
    requires corrected == [AtOrigin(0.0, ONE), AtOrigin(1.0, ONE)]
    requires raw == [AtOrigin(0.0, ONE), AtOrigin(0.0, HALF_TURN), AtOrigin(1.0, ONE)]
    ensures KeyframesAgree(corrected, raw) && !DenseReproduces(t, corrected, raw)
  {
    RepeatedStampSetting(corrected, raw);
    DenseReproducesKeyframes(t, corrected, raw);
  }

  lemma RepeatedStampSetting(corrected: seq<Sample>, raw: seq<Sample>)
    requires corrected == [AtOrigin(0.0, ONE), AtOrigin(1.0, ONE)]
    requires raw == [AtOrigin(0.0, ONE), AtOrigin(0.0, HALF_TURN), AtOrigin(1.0, ONE)]
    ensures Ordered(corrected, raw) && |Inside(corrected, raw)| >= 2
    ensures KeyframesAgree(corrected, raw) && !RowsAgree(corrected, raw)
  {
    hide ONE, HALF_TURN, IsUnit, SameUpToSign;
    AllInside(corrected, raw);
    TurnsDiffer();
    assert raw[0].stamp == raw[1].stamp == corrected[0].stamp;
  }

  lemma TurnsDiffer()
    ensures IsUnit(ONE) && IsUnit(HALF_TURN) && !SameUpToSign(ONE, HALF_TURN) && !SameUpToSign(HALF_TURN, ONE)
    ensures SameUpToSign(ONE, ONE) && SameUpToSign(HALF_TURN, HALF_TURN)
  {
  }

  /** So can a repeated keyframe stamp: the first keyframe at stamp 0 is not reproduced. */
  lemma RepeatedKeyframeBreaksIt(t: Trig, corrected: seq<Sample>, raw: seq<Sample>)
    requires TrigLaws(t)
    requires corrected == [AtOrigin(0.0, HALF_TURN), AtOrigin(0.0, ONE), AtOrigin(1.0, ONE)]
    requires raw == [AtOrigin(0.0, ONE), AtOrigin(1.0, ONE)]
    ensures StrictlyIncreasing(Stamps(raw)) && !DenseReproduces(t, corrected, raw)
  {
    RepeatedKeyframeSetting(corrected, raw);
    DenseReproducesKeyframes(t, corrected, raw);
  }

  lemma RepeatedKeyframeSetting(corrected: seq<Sample>, raw: seq<Sample>)
    requires corrected == [AtOrigin(0.0, HALF_TURN), AtOrigin(0.0, ONE), AtOrigin(1.0, ONE)]
    requires raw == [AtOrigin(0.0, ONE), AtOrigin(1.0, ONE)]
    ensures Ordered(corrected, raw) && |Inside(corrected, raw)| >= 2
    ensures StrictlyIncreasing(Stamps(raw)) && !KeyframesAgree(corrected, raw)
  {
    hide ONE, HALF_TURN, IsUnit, SameUpToSign;
    AllInside(corrected, raw);
    TurnsDiffer();
    assert raw[0].stamp == corrected[0].stamp == corrected[1].stamp;
  }

  lemma {:induction false} AllInside(corrected: seq<Sample>, raw: seq<Sample>)
    requires corrected != []
    requires forall s :: s in raw ==> corrected[0].stamp <= s.stamp <= corrected[|corrected| - 1].stamp
    ensures Inside(corrected, raw) == raw
  {
    if raw != [] {
      AllInside(corrected, raw[..|raw| - 1]);
      assert raw == raw[..|raw| - 1] + [raw[|raw| - 1]];
    }
  }

  /** c conj(r) q is c up to sign exactly when q is r up to sign. */
  lemma CancelFrontend(c: Quat, r: Quat, q: Quat)
    requires IsUnit(c) && IsUnit(r) && IsUnit(q)
    ensures QuatMul(QuatMul(c, Conjugate(r)), q) == c <==> q == r
    ensures QuatMul(QuatMul(c, Conjugate(r)), q) == Negate(c) <==> q == Negate(r)
  {
    var x := QuatMul(Conjugate(r), q);
    QuatMulAssociative(c, Conjugate(r), q);
    UnitProducts(c, c);
    UnitProducts(r, r);
    QuatMulAssociative(Conjugate(c), c, x);
    QuatMulAssociative(r, Conjugate(r), q);
    OneIsNeutral(x);
    OneIsNeutral(q);
    OneIsNeutral(r);
    OneIsNeutral(c);
    NegateMovesOut(c, ONE);
    NegateMovesOut(r, ONE);
    NegateMovesOut(Conjugate(c), c);
    NegateMovesOut(Conjugate(r), r);
  }

  /** Between two frontend rows served by one keyframe the relative rotation is the frontend's own, so
      the sway between keyframes survives. */
  lemma DenseKeepsFrontendMotion(t: Trig, corrected: seq<Sample>, raw: seq<Sample>, a: Sample, b: Sample)
    requires TrigLaws(t) && AllUnit(corrected) && AllUnit(raw) && corrected != [] && |raw| >= 2
    requires KeyframeOf(corrected, a.stamp) == KeyframeOf(corrected, b.stamp)
    ensures QuatMul(Conjugate(Corrected(t, corrected, raw, a).q), Corrected(t, corrected, raw, b).q) ==
      QuatMul(Conjugate(a.q), b.q)
  {
    var c := Correction(t, raw, corrected[KeyframeOf(corrected, a.stamp)]);
    CorrectionIsUnit(t, raw, corrected[KeyframeOf(corrected, a.stamp)]);
    UnitProducts(c, c);
    ConjugateProduct(c, a.q);
    QuatMulAssociative(Conjugate(a.q), Conjugate(c), QuatMul(c, b.q));
    QuatMulAssociative(Conjugate(c), c, b.q);
    OneIsNeutral(b.q);
  }
}
