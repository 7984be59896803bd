/** What `_slerp` in scripts/check_map_gravity_alignment.py gives between two samples: the same share of the
    angle as of the time. A frontend that turns at a constant rate is reproduced at every query. */
module Interpolation {
  import opened Reals
  import opened RigidMotion
  import opened StampSearch
  import opened Densify

  // ---------- the share of the time ----------

  /** The fraction is the share of the time between the two stamps; inside them it lies in [0, 1]. */
  lemma FractionIsTheShare(t0: real, t1: real, query: real)
    requires t0 < t1
    ensures Times(Fraction(t0, t1, query), t1 - t0) == query - t0
    ensures t0 <= query <= t1 ==> 0.0 <= Fraction(t0, t1, query) <= 1.0
  {
    var f, gap := Fraction(t0, t1, query), t1 - t0;
    assert f * gap == query - t0;
    if t0 <= query <= t1 {
      ShareInRange(f, gap);
    }
  }

  lemma ShareInRange(f: real, gap: real)
    requires gap > 0.0 && 0.0 <= Times(f, gap) <= gap
    ensures 0.0 <= f <= 1.0
  {
    KeepsOrder(f, 0.0, gap);
    KeepsOrder(1.0, f, gap);
  }

  lemma KeepsOrder(a: real, b: real, gap: real)
    requires gap > 0.0
    ensures a < b ==> Times(a, gap) < Times(b, gap)
  {
    if a < b {
      var more := b - a;
      assert more * gap > 0.0 && b * gap == a * gap + more * gap;
    }
  }

  /** Samples i and i + 1 serve the query: it lies between them, or before or after all the others. */
  predicate Serves(samples: seq<Sample>, i: nat, query: real) {
    && i + 1 < |samples|
    && (i == 0 || samples[i].stamp < query)
    && (i + 2 == |samples| || query <= samples[i + 1].stamp)
  }

  lemma ServingIndex(samples: seq<Sample>, i: nat, query: real)
    requires NonDecreasing(Stamps(samples)) && Serves(samples, i, query)
    ensures Index(Stamps(samples), query) == i
  {
    var times := Stamps(samples);
    var n := InsertionLeft(times, query);
    assert times[i] == samples[i].stamp && times[i + 1] == samples[i + 1].stamp;
    assert i > 0 ==> i < n;
    assert i + 2 < |samples| ==> n <= i + 1;
  }

  lemma SlerpIsTheBlend(t: Trig, samples: seq<Sample>, i: nat, query: real)
    requires NonDecreasing(Stamps(samples)) && Serves(samples, i, query)
    ensures Slerp(t, samples, query) ==
      Blend(t, samples[i].q, samples[i + 1].q, Fraction(samples[i].stamp, samples[i + 1].stamp, query))
  {
    ServingIndex(samples, i, query);
  }

  // ---------- the share of the angle ----------

  lemma DotSum(u: real, v: real, x: real, y: real, z: real, w: real, a: real, b: real, c: real, d: real)
    requires SumOfSquares(x, y, z, w) == 1.0
    ensures x * (Times(u, x) + Times(v, a)) + y * (Times(u, y) + Times(v, b)) + z * (Times(u, z) + Times(v, c)) +
      w * (Times(u, w) + Times(v, d)) == u + Times(v, x * a + y * b + z * c + w * d)
  {
    WholeWeight(u, x * x + y * y + z * z + w * w);
    FactorOut(u, x * x, y * y, z * z, w * w);
    FactorOut(v, x * a, y * b, z * c, w * d);
    DotTerm(u, v, x, a);
    DotTerm(u, v, y, b);
    DotTerm(u, v, z, c);
    DotTerm(u, v, w, d);
  }

  lemma WholeWeight(u: real, one: real)
    requires one == 1.0
    ensures Times(u, one) == u
  {
  }

  lemma DotTerm(u: real, v: real, x: real, a: real)
    ensures x * (Times(u, x) + Times(v, a)) == Times(u, x * x) + Times(v, x * a)
  {
  }

  lemma DotWithFirst(u: real, a: Quat, v: real, b: Quat)
    requires IsUnit(a)
    ensures QuatDot(a, Combine(u, a, v, b)) == u + Times(v, QuatDot(a, b))
  {
    DotSum(u, v, a.x, a.y, a.z, a.w, b.x, b.y, b.z, b.w);
  }

  lemma DotWithSecond(u: real, a: Quat, v: real, b: Quat)
    requires IsUnit(b)
    ensures QuatDot(b, Combine(u, a, v, b)) == v + Times(u, QuatDot(a, b))
  {
    DotWithFirst(v, b, u, a);
    assert Combine(u, a, v, b) == Combine(v, b, u, a);
    assert QuatDot(a, b) == QuatDot(b, a);
  }

  /** The second quaternion on the side of the first. */
  function Nearer(a: Quat, b: Quat): Quat { if QuatDot(a, b) < 0.0 then Negate(b) else b }

  function AngleBetween(t: Trig, a: Quat, b: Quat): real { t.acos(Abs(QuatDot(a, b))) }

  lemma NearerIsAtTheAngle(t: Trig, a: Quat, b: Quat)
    requires TrigLaws(t) && IsUnit(a) && IsUnit(b)
    ensures IsUnit(Nearer(a, b)) && 0.0 <= Abs(QuatDot(a, b)) <= 1.0
    ensures QuatDot(a, Nearer(a, b)) == Abs(QuatDot(a, b)) == t.cos(AngleBetween(t, a, b))
  {
    NegateMovesOut(b, a);
    NegateDot(a, b);
    DotOfUnits(a, b);
    assert ArcLaw(t, Abs(QuatDot(a, b)));
  }

  /** Outside the small-angle branch the blend is the weighted sum itself. */
  lemma BlendIsTheSum(t: Trig, a: Quat, b: Quat, f: real)
    requires TrigLaws(t) && IsUnit(a) && IsUnit(b) && t.sin(AngleBetween(t, a, b)) >= 0.000001
    ensures var angle := AngleBetween(t, a, b);
      var s := t.sin(angle);
      Blend(t, a, b, f) == Combine(t.sin(Times(1.0 - f, angle)) / s, a, t.sin(Times(f, angle)) / s, Nearer(a, b))
  {
    var d := Abs(QuatDot(a, b));
    NearerIsAtTheAngle(t, a, b);
    assert Clip(d, -1.0, 1.0) == d;
    var (u, v) := Weights(t, t.acos(d), f);
    BlendNormPositive(t, d, f);
    CombinedNorm(u, a, v, Nearer(a, b));
    UnitIsNormalised(t, Combine(u, a, v, Nearer(a, b)));
  }

  /** The blend lies at the fraction of the angle: its angles to the two ends are f and 1 - f times the whole. */
  lemma BlendSharesTheAngle(t: Trig, a: Quat, b: Quat, f: real)
    requires TrigLaws(t) && IsUnit(a) && IsUnit(b) && t.sin(AngleBetween(t, a, b)) >= 0.000001
    ensures var angle := AngleBetween(t, a, b);
      && QuatDot(a, Blend(t, a, b, f)) == t.cos(Times(f, angle))
      && QuatDot(Nearer(a, b), Blend(t, a, b, f)) == t.cos(Times(1.0 - f, angle))
  {
    var angle := AngleBetween(t, a, b);
    var b' := Nearer(a, b);
    var s, d := t.sin(angle), t.cos(angle);
    var x, y := Times(1.0 - f, angle), Times(f, angle);
    NearerIsAtTheAngle(t, a, b);
    BlendIsTheSum(t, a, b, f);
    PartsAddUp(f, angle);
    assert SumLaws(t, x, y) && CircleLaw(t, x) && CircleLaw(t, y);
    PartsOfTheCircle(t.sin(x), t.cos(x), t.sin(y), t.cos(y));
    DotWithFirst(t.sin(x) / s, a, t.sin(y) / s, b');
    DotWithSecond(t.sin(x) / s, a, t.sin(y) / s, b');
    Divided(t.sin(x), t.sin(y), d, s, t.cos(y));
    Divided(t.sin(y), t.sin(x), d, s, t.cos(x));
  }

  lemma Divided(p: real, q: real, d: real, s: real, e: real)
    requires s > 0.0 && p + Times(q, d) == Times(s, e)
    ensures p / s + Times(q / s, d) == e
  {
    var r := 1.0 / s;
    assert r * s == 1.0 && p / s == r * p && q / s == r * q;
    assert r * p + (r * q) * d == r * (p + q * d);
    assert r * (s * e) == (r * s) * e;
  }

  /** In the small-angle branch it is the unit quaternion along the chord. */
  lemma SmallBlendIsTheChord(t: Trig, a: Quat, b: Quat, f: real) returns (k: real)
    requires TrigLaws(t) && IsUnit(a) && IsUnit(b) && t.sin(AngleBetween(t, a, b)) < 0.000001
    ensures k > 0.0 && IsUnit(Blend(t, a, b, f))
    ensures Blend(t, a, b, f) == Combine(Times(k, 1.0 - f), a, Times(k, f), Nearer(a, b))
  {
    var d := Abs(QuatDot(a, b));
    NearerIsAtTheAngle(t, a, b);
    assert Clip(d, -1.0, 1.0) == d;
    BlendNormPositive(t, d, f);
    var chord := Combine(1.0 - f, a, f, Nearer(a, b));
    CombinedNorm(1.0 - f, a, f, Nearer(a, b));
    BlendIsUnit(t, a, b, f);
    var n := t.sqrt(QuatNormSq(chord));
    assert SqrtLaw(t, QuatNormSq(chord));
    assert n > 0.0;
    k := 1.0 / n;
    ScaledSumOf(k, 1.0 - f, a, f, Nearer(a, b));
  }

  lemma ScaledSumOf(k: real, u: real, a: Quat, v: real, b: Quat)
    ensures Combine(k, Combine(u, a, v, b), 0.0, Combine(u, a, v, b)) == Combine(Times(k, u), a, Times(k, v), b)
  {
    ScaledTerm(k, u, a.x, v, b.x);
    ScaledTerm(k, u, a.y, v, b.y);
    ScaledTerm(k, u, a.z, v, b.z);
    ScaledTerm(k, u, a.w, v, b.w);
  }

  lemma ScaledTerm(k: real, u: real, x: real, v: real, y: real)
    ensures var sum := Times(u, x) + Times(v, y);
      Times(k, sum) + Times(0.0, sum) == Times(Times(k, u), x) + Times(Times(k, v), y)
  {
  }

  /** Between two samples the interpolated orientation takes the share of the angle that the query has of the
      time; where the two stamps are equal it is the first sample. */
  lemma SlerpSharesTheAngle(t: Trig, samples: seq<Sample>, i: nat, query: real)
    requires TrigLaws(t) && NonDecreasing(Stamps(samples)) && AllUnit(samples) && Serves(samples, i, query)
    ensures var a, b := samples[i], samples[i + 1];
      var angle, r := AngleBetween(t, a.q, b.q), Slerp(t, samples, query);
      && IsUnit(r)
      && (a.stamp == b.stamp ==> r == a.q)
      && (a.stamp < b.stamp && t.sin(angle) >= 0.000001 ==>
            exists f :: Times(f, b.stamp - a.stamp) == query - a.stamp
              && QuatDot(a.q, r) == t.cos(Times(f, angle))
              && QuatDot(Nearer(a.q, b.q), r) == t.cos(Times(1.0 - f, angle)))
  {
    var a, b := samples[i], samples[i + 1];
    SlerpIsTheBlend(t, samples, i, query);
    var f := Fraction(a.stamp, b.stamp, query);
    BlendIsUnit(t, a.q, b.q, f);
    if a.stamp == b.stamp {
      BlendAtEnds(t, a.q, b.q);
    }
    if a.stamp < b.stamp && t.sin(AngleBetween(t, a.q, b.q)) >= 0.000001 {
      FractionIsTheShare(a.stamp, b.stamp, query);
      BlendSharesTheAngle(t, a.q, b.q, f);
    }
  }

  // ---------- a frontend that turns at a constant rate ----------

  /** A turn about an axis, by twice the angle. */
  function Turn(t: Trig, axis: Vec, angle: real): Quat {
    Quat(Times(axis.x, t.sin(angle)), Times(axis.y, t.sin(angle)), Times(axis.z, t.sin(angle)), t.cos(angle))
  }

  /** The orientation at a stamp: from a base orientation, turning at a constant rate. */
  function TurnedAt(t: Trig, axis: Vec, base: Quat, start: real, rate: real, stamp: real): Quat {
    QuatMul(Turn(t, axis, start + Times(rate, stamp)), base)
  }

  lemma TurnIsUnit(t: Trig, axis: Vec, angle: real)
    requires TrigLaws(t) && NormSq(axis) == 1.0
    ensures IsUnit(Turn(t, axis, angle))
  {
    assert CircleLaw(t, angle);
    AxisSquares(axis.x, axis.y, axis.z, t.sin(angle), t.sin(angle));
  }

  lemma AxisSquares(x: real, y: real, z: real, s: real, r: real)
    requires x * x + y * y + z * z == 1.0
    ensures Times(x, s) * Times(x, r) + Times(y, s) * Times(y, r) + Times(z, s) * Times(z, r) == Times(s, r)
  {
    assert (x * s) * (x * r) + (y * s) * (y * r) + (z * s) * (z * r) == (x * x + y * y + z * z) * (s * r);
  }

  lemma TurnsDot(t: Trig, axis: Vec, angle: real, more: real)
    requires TrigLaws(t) && NormSq(axis) == 1.0
    ensures QuatDot(Turn(t, axis, angle), Turn(t, axis, angle + more)) == t.cos(more)
  {
    assert CircleLaw(t, angle) && SumLaws(t, angle, more);
    AxisSquares(axis.x, axis.y, axis.z, t.sin(angle), t.sin(angle + more));
    DifferenceOfAngles(t.sin(angle), t.cos(angle), t.sin(more), t.cos(more));
  }

  lemma DifferenceOfAngles(p: real, c: real, q: real, e: real)
    requires Times(p, p) + Times(c, c) == 1.0
    ensures Times(p, Times(p, e) + Times(c, q)) + Times(c, Times(c, e) - Times(p, q)) == e
  {
    assert p * (p * e + c * q) + c * (c * e - p * q) == (p * p + c * c) * e;
  }

  lemma DotKeepsBase(a: Quat, b: Quat, base: Quat)
    requires IsUnit(base)
    ensures QuatDot(QuatMul(a, base), QuatMul(b, base)) == QuatDot(a, b)
  {
    var p, q := QuatMul(a, base), QuatMul(b, base);
    DotInProduct(p.x, p.y, p.z, p.w, q.x, q.y, q.z, q.w);
    DotInProductRight(p.x, p.y, p.z, p.w, q.x, q.y, q.z, q.w);
    DotInProductRight(a.x, a.y, a.z, a.w, b.x, b.y, b.z, b.w);
    ConjugateProduct(b, base);
    QuatMulAssociative(a, base, QuatMul(Conjugate(base), Conjugate(b)));
    QuatMulAssociative(base, Conjugate(base), Conjugate(b));
    UnitProducts(base, base);
    OneIsNeutral(Conjugate(b));
  }

  lemma DotInProductRight(x: real, y: real, z: real, w: real, a: real, b: real, c: real, d: real)
    ensures Hamilton(x, y, z, w, -a, -b, -c, d).w == x * a + y * b + z * c + w * d
  {
  }

  lemma CombineBeforeBase(u: real, a: Quat, v: real, b: Quat, base: Quat)
    ensures QuatMul(Combine(u, a, v, b), base) == Combine(u, QuatMul(a, base), v, QuatMul(b, base))
  {
    SumHamilton(u, a.x, a.y, a.z, a.w, v, b.x, b.y, b.z, b.w, base.x, base.y, base.z, base.w);
  }

  lemma SumHamilton(u: real, x: real, y: real, z: real, w: real, v: real, a: real, b: real, c: real, d: real,
                    e: real, f: real, g: real, h: real)
    ensures Hamilton(Times(u, x) + Times(v, a), Times(u, y) + Times(v, b), Times(u, z) + Times(v, c),
                     Times(u, w) + Times(v, d), e, f, g, h) ==
      Combine(u, Hamilton(x, y, z, w, e, f, g, h), v, Hamilton(a, b, c, d, e, f, g, h))
  {
    ThreePlusOneMinus(u, v, w, x, y, z, d, a, b, c, e, h, g, f);
    ThreePlusOneMinus(u, v, w, y, z, x, d, b, c, a, f, h, e, g);
    ThreePlusOneMinus(u, v, w, x, z, y, d, a, c, b, g, f, h, e);
    OnePlusThreeMinus(u, v, w, x, y, z, d, a, b, c, h, e, f, g);
  }

  lemma ThreePlusOneMinus(
      u: real, v: real, x: real, y: real, z: real, w: real, a: real, b: real, c: real, d: real,
      e: real, f: real, g: real, h: real)
    ensures (Times(u, x) + Times(v, a)) * e + (Times(u, y) + Times(v, b)) * f + (Times(u, z) + Times(v, c)) * g -
      (Times(u, w) + Times(v, d)) * h ==
      Times(u, x * e + y * f + z * g - w * h) + Times(v, a * e + b * f + c * g - d * h)
  {
    WeightedTerm(u, v, x, a, e);
    WeightedTerm(u, v, y, b, f);
    WeightedTerm(u, v, z, c, g);
    WeightedTerm(u, v, w, d, h);
  }

  lemma OnePlusThreeMinus(
      u: real, v: real, x: real, y: real, z: real, w: real, a: real, b: real, c: real, d: real,
      e: real, f: real, g: real, h: real)
    ensures (Times(u, x) + Times(v, a)) * e - (Times(u, y) + Times(v, b)) * f - (Times(u, z) + Times(v, c)) * g -
      (Times(u, w) + Times(v, d)) * h ==
      Times(u, x * e - y * f - z * g - w * h) + Times(v, a * e - b * f - c * g - d * h)
  {
    WeightedTerm(u, v, x, a, e);
    WeightedTerm(u, v, y, b, f);
    WeightedTerm(u, v, z, c, g);
    WeightedTerm(u, v, w, d, h);
  }

  lemma WeightedTerm(u: real, v: real, x: real, a: real, e: real)
    ensures (Times(u, x) + Times(v, a)) * e == Times(u, x * e) + Times(v, a * e)
  {
  }

  /** Two turns weighted by sines of the parts are the sine of the whole times the turn between them. */
  lemma TurnBetween(t: Trig, axis: Vec, angle: real, gap: real, f: real)
    requires TrigLaws(t) && t.sin(gap) > 0.0
    ensures var s := t.sin(gap);
      Combine(t.sin(Times(1.0 - f, gap)) / s, Turn(t, axis, angle),
              t.sin(Times(f, gap)) / s, Turn(t, axis, angle + gap)) == Turn(t, axis, angle + Times(f, gap))
  {
    var x, y, s := Times(1.0 - f, gap), Times(f, gap), t.sin(gap);
    PartsAddUp(f, gap);
    assert SumLaws(t, x, y) && CircleLaw(t, x) && CircleLaw(t, y) && CircleLaw(t, angle);
    assert SumLaws(t, angle, gap) && SumLaws(t, angle, y);
    PartsOfTheCircle(t.sin(x), t.cos(x), t.sin(y), t.cos(y));
    CircleBetween(t.sin(x), t.sin(y), t.cos(y), s, t.cos(gap), t.sin(angle), t.cos(angle));
    CircleBetween(t.sin(x), t.sin(y), t.cos(y), s, t.cos(gap), t.cos(angle), -t.sin(angle));
    var u, v := t.sin(x) / s, t.sin(y) / s;
    AxisMovesOut(axis.x, u, t.sin(angle), v, t.sin(angle + gap));
    AxisMovesOut(axis.y, u, t.sin(angle), v, t.sin(angle + gap));
    AxisMovesOut(axis.z, u, t.sin(angle), v, t.sin(angle + gap));
  }

  lemma AxisMovesOut(k: real, u: real, p: real, v: real, q: real)
    ensures Times(u, Times(k, p)) + Times(v, Times(k, q)) == Times(k, Times(u, p) + Times(v, q))
  {
  }

  /** sin(x) and sin(y) weight a point of the circle and the one the whole angle further on; p and c are the
      point's own coordinate and the one that it turns into. */
  lemma CircleBetween(sx: real, sy: real, cy: real, s: real, d: real, p: real, c: real)
    requires s > 0.0 && sx + Times(sy, d) == Times(s, cy)
    ensures Times(sx / s, p) + Times(sy / s, Times(p, d) + Times(c, s)) == Times(p, cy) + Times(c, sy)
  {
    var r := 1.0 / s;
    assert r * s == 1.0 && sx / s == r * sx && sy / s == r * sy;
    Divided(sx, sy, d, s, cy);
    assert (r * sx) * p + (r * sy) * (p * d + c * s) == p * (r * sx + (r * sy) * d) + c * ((r * s) * sy);
  }

  lemma BlendOfTurns(t: Trig, axis: Vec, base: Quat, angle: real, gap: real, f: real)
    requires TrigLaws(t) && NormSq(axis) == 1.0 && IsUnit(base)
    requires t.cos(gap) >= 0.0 && t.acos(t.cos(gap)) == gap && t.sin(gap) >= 0.000001
    ensures Blend(t, QuatMul(Turn(t, axis, angle), base), QuatMul(Turn(t, axis, angle + gap), base), f) ==
      QuatMul(Turn(t, axis, angle + Times(f, gap)), base)
    ensures IsUnit(QuatMul(Turn(t, axis, angle), base)) && IsUnit(QuatMul(Turn(t, axis, angle + gap), base))
  {
    var p, q := Turn(t, axis, angle), Turn(t, axis, angle + gap);
    TurnIsUnit(t, axis, angle);
    TurnIsUnit(t, axis, angle + gap);
    UnitProducts(p, base);
    UnitProducts(q, base);
    DotKeepsBase(p, q, base);
    TurnsDot(t, axis, angle, gap);
    BlendIsTheSum(t, QuatMul(p, base), QuatMul(q, base), f);
    TurnBetween(t, axis, angle, gap, f);
    CombineBeforeBase(t.sin(Times(1.0 - f, gap)) / t.sin(gap), p, t.sin(Times(f, gap)) / t.sin(gap), q, base);
  }

  /** The frontend turns at a constant rate, less than a half turn between the samples, and by more than the
      code takes for none: then interpolating gives its orientation at the query. */
  lemma ConstantTurnIsReproduced(
      t: Trig, samples: seq<Sample>, axis: Vec, base: Quat, start: real, rate: real, i: nat, query: real)
    requires TrigLaws(t) && NormSq(axis) == 1.0 && IsUnit(base)
    requires NonDecreasing(Stamps(samples)) && Serves(samples, i, query) && samples[i].stamp < samples[i + 1].stamp
    requires forall k :: i <= k <= i + 1 ==> samples[k].q == TurnedAt(t, axis, base, start, rate, samples[k].stamp)
    requires var gap := Times(rate, samples[i + 1].stamp - samples[i].stamp);
      t.cos(gap) >= 0.0 && t.acos(t.cos(gap)) == gap && t.sin(gap) >= 0.000001
    ensures Slerp(t, samples, query) == TurnedAt(t, axis, base, start, rate, query)
  {
    hide Blend, QuatMul, Turn, Fraction, Slerp;
    var a, b := samples[i], samples[i + 1];
    var gap, angle := Times(rate, b.stamp - a.stamp), start + Times(rate, a.stamp);
    var f := Fraction(a.stamp, b.stamp, query);
    SlerpIsTheBlend(t, samples, i, query);
    FractionIsTheShare(a.stamp, b.stamp, query);
    RateOfTime(rate, a.stamp, b.stamp, query, f);
    BlendOfTurns(t, axis, base, angle, gap, f);
  }

  lemma RateOfTime(rate: real, t0: real, t1: real, query: real, f: real)
    requires Times(f, t1 - t0) == query - t0
    ensures Times(rate, t1) == Times(rate, t0) + Times(rate, t1 - t0)
    ensures Times(rate, query) == Times(rate, t0) + Times(f, Times(rate, t1 - t0))
  {
    assert f * (rate * (t1 - t0)) == rate * (f * (t1 - t0));
  }

  // ---------- the dense row ----------

  /** A dense row is turned away from its keyframe exactly as the frontend is turned away from its own
      interpolated orientation at the keyframe's stamp. */
  lemma DenseRowFollowsFrontend(t: Trig, corrected: seq<Sample>, raw: seq<Sample>, s: Sample)
    requires TrigLaws(t) && AllUnit(corrected) && AllUnit(raw) && corrected != [] && |raw| >= 2
    ensures var key := corrected[KeyframeOf(corrected, s.stamp)];
      QuatMul(Conjugate(key.q), Corrected(t, corrected, raw, s).q) ==
      QuatMul(Conjugate(Slerp(t, raw, key.stamp)), s.q)
  {
    var key := corrected[KeyframeOf(corrected, s.stamp)];
    var back := Conjugate(Slerp(t, raw, key.stamp));
    QuatMulAssociative(key.q, back, s.q);
    QuatMulAssociative(Conjugate(key.q), key.q, QuatMul(back, s.q));
    UnitProducts(key.q, key.q);
    OneIsNeutral(QuatMul(back, s.q));
  }
}
