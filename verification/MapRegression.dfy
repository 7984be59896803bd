/** Paired non-regression of map-quality reports (scripts/check_map_quality_regression.py), and what a
    chain of passing comparisons guarantees. */
module MapRegression {
  import opened Reals

  datatype Direction = LowerIsBetter | HigherIsBetter | HigherIsWorse
  datatype Metric = ThicknessMean | ThicknessP95 | Coverage | ValidFraction | Entropy

  const METRICS: seq<Metric> := [ThicknessMean, ThicknessP95, Coverage, ValidFraction, Entropy]

  function DirectionOf(m: Metric): Direction {
    match m
    case Coverage => HigherIsBetter
    case ValidFraction => HigherIsBetter
    case Entropy => HigherIsWorse
    case _ => LowerIsBetter
  }

  /** A report whose fields are present and numeric. */
  datatype Report = Report(
    inputPoints: nat, evaluatedPoints: nat, downsample: real, entropyRadius: real, validPoints: nat,
    meaningful: bool, patchCount: nat, minCoverage: real, occupiedVoxels: nat, meanPerVoxel: real, stddevPerVoxel: real,
    thicknessMean: real, thicknessP95: real, coverage: real, validFraction: real, entropy: real)

  function ValueOf(r: Report, m: Metric): real {
    match m
    case ThicknessMean => r.thicknessMean
    case ThicknessP95 => r.thicknessP95
    case Coverage => r.coverage
    case ValidFraction => r.validFraction
    case Entropy => r.entropy
  }

  /** `_validate_snapshot`. */
  predicate Acceptable(r: Report) {
    && 0 < r.evaluatedPoints <= r.inputPoints && r.validPoints <= r.evaluatedPoints
    && r.downsample > 0.0 && r.entropyRadius > 0.0
    && r.meaningful && r.patchCount > 0 && 0.0 <= r.minCoverage <= 1.0
    && r.occupiedVoxels > 0 && r.meanPerVoxel >= 0.0 && r.stddevPerVoxel >= 0.0
    && r.thicknessMean >= 0.0 && r.thicknessP95 >= 0.0
    && 0.0 <= r.coverage <= 1.0 && 0.0 <= r.validFraction <= 1.0
  }

  predicate SameExtraction(a: Report, b: Report) {
    a.downsample == b.downsample && a.entropyRadius == b.entropyRadius && a.minCoverage == b.minCoverage
  }

  /** How much worse the candidate is; negative if it is better. */
  function Worsening(baseline: real, candidate: real, direction: Direction): real {
    if direction == HigherIsBetter then baseline - candidate else candidate - baseline
  }

  function Loss(baseline: real, candidate: real, direction: Direction): real {
    var worsening := Worsening(baseline, candidate, direction);
    if worsening < 0.0 then 0.0 else worsening
  }

  function RegressionPercent(baseline: real, candidate: real, direction: Direction): real
    requires baseline != 0.0
  {
    var percent := Worsening(baseline, candidate, direction) / Abs(baseline) * 100.0;
    if percent < 0.0 then 0.0 else percent
  }

  datatype Check = Check(metric: Metric, allowedAbs: real, regression: real, pass: bool)
  datatype Receipt = Compared(pass: bool, violations: nat, checks: seq<Check>) | Invalid

  /** The candidate is worse than the baseline by no more than the printed allowance. */
  predicate WithinAllowance(baseline: real, candidate: real, direction: Direction, maxPercent: real) {
    Worsening(baseline, candidate, direction) <= Abs(baseline) * maxPercent / 100.0
  }

  predicate Comparable(a: Report, b: Report, maxPercent: real) {
    && maxPercent >= 0.0 && Acceptable(a) && Acceptable(b) && SameExtraction(a, b)
    && forall m :: m in METRICS ==> ValueOf(a, m) != 0.0
  }

  // What makes a report or a pair of reports unfit for comparison.

  predicate NoEvidence(r: Report) {
    r.evaluatedPoints == 0 || !r.meaningful || r.patchCount == 0 || r.occupiedVoxels == 0
  }

  predicate Inconsistent(r: Report) { r.inputPoints < r.evaluatedPoints || r.evaluatedPoints < r.validPoints }

  predicate BadSettings(r: Report) {
    r.downsample <= 0.0 || r.entropyRadius <= 0.0 || r.minCoverage < 0.0 || r.minCoverage > 1.0
  }

  predicate BadMetric(r: Report) {
    || r.thicknessMean < 0.0 || r.thicknessP95 < 0.0 || r.meanPerVoxel < 0.0 || r.stddevPerVoxel < 0.0
    || r.coverage < 0.0 || r.coverage > 1.0 || r.validFraction < 0.0 || r.validFraction > 1.0
  }

  predicate Unfit(r: Report) { NoEvidence(r) || Inconsistent(r) || BadSettings(r) || BadMetric(r) }

  /** A comparison is refused exactly for a negative allowance, an unfit report, different extraction settings, or
      a baseline with a zero among the five metrics. */
  lemma RefusedExactly(a: Report, b: Report, maxPercent: real)
    ensures !Comparable(a, b, maxPercent) <==>
      || maxPercent < 0.0 || Unfit(a) || Unfit(b)
      || a.downsample != b.downsample || a.entropyRadius != b.entropyRadius || a.minCoverage != b.minCoverage
      || a.thicknessMean == 0.0 || a.thicknessP95 == 0.0 || a.coverage == 0.0 || a.validFraction == 0.0 || a.entropy == 0.0
  {
    forall m: Metric ensures m in METRICS {
      EveryMetric(m);
    }
    assert ValueOf(a, ThicknessMean) == a.thicknessMean && ValueOf(a, ThicknessP95) == a.thicknessP95;
    assert ValueOf(a, Coverage) == a.coverage && ValueOf(a, ValidFraction) == a.validFraction;
    assert ValueOf(a, Entropy) == a.entropy;
  }

  lemma EveryMetric(m: Metric)
    ensures m in METRICS
  {
    assert METRICS[0] == ThicknessMean && METRICS[1] == ThicknessP95 && METRICS[2] == Coverage;
    assert METRICS[3] == ValidFraction && METRICS[4] == Entropy;
  }

  /** Each verdict is the comparison with the printed absolute allowance. */
  lemma VerdictIsTheAllowance(baseline: real, candidate: real, direction: Direction, maxPercent: real)
    requires baseline != 0.0 && maxPercent >= 0.0
    ensures RegressionPercent(baseline, candidate, direction) <= maxPercent <==>
            WithinAllowance(baseline, candidate, direction, maxPercent)
  {
    PercentOf(Worsening(baseline, candidate, direction), Abs(baseline), maxPercent);
  }

  /** The reported percentage is the share of the baseline by which the candidate is worse, never negative. */
  lemma PercentIsTheLoss(baseline: real, candidate: real, direction: Direction)
    requires baseline != 0.0
    ensures Times(RegressionPercent(baseline, candidate, direction), Abs(baseline)) == 100.0 * Loss(baseline, candidate, direction)
  {
    var delta, whole := Worsening(baseline, candidate, direction), Abs(baseline);
    var q := delta / whole;
    assert q * whole == delta;
    assert (q * 100.0) * whole == 100.0 * delta;
    assert q < 0.0 <==> delta < 0.0 by {
      if q < 0.0 { assert q * whole < 0.0; } else { assert q * whole >= 0.0; }
    }
  }

  lemma PercentOf(delta: real, whole: real, percent: real)
    requires whole > 0.0
    ensures delta / whole * 100.0 <= percent <==> delta <= whole * percent / 100.0
  {
    var q := delta / whole;
    assert q * whole == delta;
    var gap := percent - q * 100.0;
    assert whole * percent / 100.0 - delta == whole * gap / 100.0;
    assert gap >= 0.0 ==> whole * gap >= 0.0;
    assert gap < 0.0 ==> whole * gap < 0.0;
  }

  /** A comparison is refused exactly when it is not meaningful; otherwise it passes exactly when every
      metric stays within its allowance. */
  method Compare(baseline: Report, candidate: Report, maxPercent: real) returns (receipt: Receipt)
    ensures receipt.Compared? <==> Comparable(baseline, candidate, maxPercent)
    ensures receipt.Compared? ==>
      && (receipt.pass <==> forall m :: m in METRICS ==>
            WithinAllowance(ValueOf(baseline, m), ValueOf(candidate, m), DirectionOf(m), maxPercent))
      && receipt.violations == Violations(receipt.checks) && (receipt.pass <==> receipt.violations == 0)
      && |receipt.checks| == |METRICS|
      && forall i :: 0 <= i < |METRICS| ==> CheckIs(receipt.checks[i], METRICS[i], baseline, candidate, maxPercent)
  {
    if maxPercent < 0.0 || !Acceptable(baseline) || !Acceptable(candidate) || !SameExtraction(baseline, candidate) {
      return Invalid;
    }
    if exists m :: m in METRICS && ValueOf(baseline, m) == 0.0 { return Invalid; }
    var checks, violations := CompareMetrics(METRICS, baseline, candidate, maxPercent);
    ChecksCoverMetrics(METRICS, checks, baseline, candidate, maxPercent);
    return Compared(violations == 0, violations, checks);
  }

  /** The loop over the metric table. */
  method CompareMetrics(metrics: seq<Metric>, baseline: Report, candidate: Report, maxPercent: real)
      returns (checks: seq<Check>, violations: nat)
    requires maxPercent >= 0.0 && forall m :: m in metrics ==> ValueOf(baseline, m) != 0.0
    ensures |checks| == |metrics|
    ensures forall i :: 0 <= i < |metrics| ==> CheckIs(checks[i], metrics[i], baseline, candidate, maxPercent)
    ensures violations == Violations(checks)
    ensures violations == 0 <==> AllPass(checks)
  {
    checks, violations := [], 0;
    for n := 0 to |metrics|
      invariant |checks| == n
      invariant violations == Violations(checks)
      invariant violations == 0 <==> AllPass(checks)
      invariant forall i :: 0 <= i < n ==> CheckIs(checks[i], metrics[i], baseline, candidate, maxPercent)
    {
      assert metrics[n] in metrics;
      var check := CheckMetric(metrics[n], baseline, candidate, maxPercent);
      if !check.pass { violations := violations + 1; }
      AllPassStep(checks, check);
      assert (checks + [check])[..n] == checks;
      checks := checks + [check];
    }
  }

  method CheckMetric(m: Metric, baseline: Report, candidate: Report, maxPercent: real) returns (check: Check)
    requires maxPercent >= 0.0 && ValueOf(baseline, m) != 0.0
    ensures CheckIs(check, m, baseline, candidate, maxPercent)
  {
    var allowedAbs := Abs(ValueOf(baseline, m)) * maxPercent / 100.0;
    var regression := RegressionPercent(ValueOf(baseline, m), ValueOf(candidate, m), DirectionOf(m));
    VerdictIsTheAllowance(ValueOf(baseline, m), ValueOf(candidate, m), DirectionOf(m), maxPercent);
    PercentIsTheLoss(ValueOf(baseline, m), ValueOf(candidate, m), DirectionOf(m));
    check := Check(m, allowedAbs, regression, regression <= maxPercent);
  }

  /** The number of violated metrics. */
  function Violations(checks: seq<Check>): nat {
    if checks == [] then 0
    else Violations(checks[..|checks| - 1]) + if checks[|checks| - 1].pass then 0 else 1
  }

  predicate AllPass(checks: seq<Check>) { forall i :: 0 <= i < |checks| ==> checks[i].pass }

  lemma AllPassStep(checks: seq<Check>, c: Check)
    ensures AllPass(checks + [c]) <==> AllPass(checks) && c.pass
  {
    var all := checks + [c];
    assert all[|checks|] == c && forall i :: 0 <= i < |checks| ==> all[i] == checks[i];
  }

  lemma ChecksCoverMetrics(metrics: seq<Metric>, checks: seq<Check>, baseline: Report, candidate: Report, maxPercent: real)
    requires |checks| == |metrics|
    requires forall i :: 0 <= i < |metrics| ==> CheckIs(checks[i], metrics[i], baseline, candidate, maxPercent)
    ensures AllPass(checks) <==> forall m :: m in metrics ==>
      WithinAllowance(ValueOf(baseline, m), ValueOf(candidate, m), DirectionOf(m), maxPercent)
  {
    forall m | m in metrics ensures exists i :: 0 <= i < |metrics| && metrics[i] == m {
    }
  }

  predicate CheckIs(c: Check, m: Metric, baseline: Report, candidate: Report, maxPercent: real) {
    && c.metric == m
    && Times(c.regression, Abs(ValueOf(baseline, m))) == 100.0 * Loss(ValueOf(baseline, m), ValueOf(candidate, m), DirectionOf(m))
    && c.allowedAbs == Abs(ValueOf(baseline, m)) * maxPercent / 100.0
    && (c.pass <==> WithinAllowance(ValueOf(baseline, m), ValueOf(candidate, m), DirectionOf(m), maxPercent))
  }

  /** The verdicts in the reports' own fields: thickness and its 95th percentile may grow, coverage and the share of
      valid points may shrink, each by the percentage of the baseline; entropy may rise by that of its size. */
  lemma VerdictsSpelledOut(checks: seq<Check>, a: Report, b: Report, maxPercent: real)
    requires Comparable(a, b, maxPercent) && |checks| == |METRICS|
    requires forall i :: 0 <= i < |METRICS| ==> CheckIs(checks[i], METRICS[i], a, b, maxPercent)
    ensures var up, down := 1.0 + maxPercent / 100.0, 1.0 - maxPercent / 100.0;
      && |checks| == 5
      && (checks[0].pass <==> b.thicknessMean <= Times(a.thicknessMean, up))
      && (checks[1].pass <==> b.thicknessP95 <= Times(a.thicknessP95, up))
      && (checks[2].pass <==> b.coverage >= Times(a.coverage, down))
      && (checks[3].pass <==> b.validFraction >= Times(a.validFraction, down))
      && (checks[4].pass <==> b.entropy <= a.entropy + Times(Abs(a.entropy), maxPercent / 100.0))
  {
    hide WithinAllowance, Loss;
    assert CheckIs(checks[0], ThicknessMean, a, b, maxPercent) && CheckIs(checks[1], ThicknessP95, a, b, maxPercent);
    assert CheckIs(checks[2], Coverage, a, b, maxPercent) && CheckIs(checks[3], ValidFraction, a, b, maxPercent);
    assert CheckIs(checks[4], Entropy, a, b, maxPercent);
    OneVerdict(a.thicknessMean, b.thicknessMean, maxPercent);
    OneVerdict(a.thicknessP95, b.thicknessP95, maxPercent);
    OneVerdict(a.coverage, b.coverage, maxPercent);
    OneVerdict(a.validFraction, b.validFraction, maxPercent);
    OneVerdict(a.entropy, b.entropy, maxPercent);
  }

  lemma OneVerdict(value: real, next: real, maxPercent: real)
    ensures var share := maxPercent / 100.0;
      && (value >= 0.0 ==>
            && (WithinAllowance(value, next, LowerIsBetter, maxPercent) <==> next <= Times(value, 1.0 + share))
            && (WithinAllowance(value, next, HigherIsBetter, maxPercent) <==> next >= Times(value, 1.0 - share)))
      && (WithinAllowance(value, next, HigherIsWorse, maxPercent) <==> next <= value + Times(Abs(value), share))
  {
    Allowance(value, maxPercent / 100.0, maxPercent);
    Shared(value, maxPercent);
  }

  /** The percentages in the reports' own fields: the loss as a share of the baseline, none for a gain. */
  lemma PercentagesSpelledOut(checks: seq<Check>, a: Report, b: Report, maxPercent: real)
    requires Comparable(a, b, maxPercent) && |checks| == |METRICS|
    requires forall i :: 0 <= i < |METRICS| ==> CheckIs(checks[i], METRICS[i], a, b, maxPercent)
    ensures |checks| == 5
    ensures Times(checks[0].regression, a.thicknessMean) == 100.0 * Positive(b.thicknessMean - a.thicknessMean)
    ensures Times(checks[1].regression, a.thicknessP95) == 100.0 * Positive(b.thicknessP95 - a.thicknessP95)
    ensures Times(checks[2].regression, a.coverage) == 100.0 * Positive(a.coverage - b.coverage)
    ensures Times(checks[3].regression, a.validFraction) == 100.0 * Positive(a.validFraction - b.validFraction)
    ensures Times(checks[4].regression, Abs(a.entropy)) == 100.0 * Positive(b.entropy - a.entropy)
  {
    assert CheckIs(checks[0], ThicknessMean, a, b, maxPercent) && CheckIs(checks[1], ThicknessP95, a, b, maxPercent);
    assert CheckIs(checks[2], Coverage, a, b, maxPercent) && CheckIs(checks[3], ValidFraction, a, b, maxPercent);
    assert CheckIs(checks[4], Entropy, a, b, maxPercent);
  }

  function Positive(x: real): real { if x > 0.0 then x else 0.0 }

  // ---------- chains ----------

  /** Each report passed against the one before it. */
  ghost predicate Chain(reports: seq<Report>, maxPercent: real) {
    && reports != []
    && forall i :: 0 <= i < |reports| - 1 ==>
         Comparable(reports[i], reports[i + 1], maxPercent) && Passes(reports[i], reports[i + 1], maxPercent)
  }

  predicate Passes(a: Report, b: Report, maxPercent: real) {
    forall m :: m in METRICS ==> WithinAllowance(ValueOf(a, m), ValueOf(b, m), DirectionOf(m), maxPercent)
  }

  function Power(x: real, n: nat): real { if n == 0 then 1.0 else Times(Power(x, n - 1), x) }

  lemma {:induction false} PowerNotNegative(x: real, n: nat)
    requires x >= 0.0
    ensures Power(x, n) >= 0.0
  {
    if n > 0 {
      PowerNotNegative(x, n - 1);
    }
  }

  lemma StepUp(start: real, value: real, next: real, power: real, factor: real)
    requires value <= Times(start, power) && next <= Times(value, factor) && factor >= 0.0
    ensures next <= Times(start, Times(power, factor))
  {
    var slack := start * power - value;
    assert slack * factor >= 0.0;
    assert slack * factor == start * (power * factor) - value * factor;
  }

  lemma StepDown(start: real, value: real, next: real, power: real, factor: real)
    requires value >= Times(start, power) && next >= Times(value, factor) && factor >= 0.0
    ensures next >= Times(start, Times(power, factor))
  {
    var slack := value - start * power;
    assert slack * factor >= 0.0;
    assert slack * factor == value * factor - start * (power * factor);
  }

  /** One passing step multiplies a metric by no worse than the factor of its direction. */
  lemma PassingStep(a: Report, b: Report, maxPercent: real, m: Metric)
    requires Comparable(a, b, maxPercent) && Passes(a, b, maxPercent)
    ensures var up, down := 1.0 + maxPercent / 100.0, 1.0 - maxPercent / 100.0;
      && ValueOf(a, m) != 0.0
      && (m.ThicknessMean? || m.ThicknessP95? ==> ValueOf(b, m) <= Times(ValueOf(a, m), up))
      && (m.Coverage? || m.ValidFraction? ==> ValueOf(b, m) >= Times(ValueOf(a, m), down))
      && (m.Entropy? && ValueOf(a, m) < 0.0 ==> ValueOf(b, m) <= Times(ValueOf(a, m), down))
      && (m.Entropy? && ValueOf(a, m) > 0.0 ==> ValueOf(b, m) <= Times(ValueOf(a, m), up))
  {
    EveryMetric(m);
    Allowance(ValueOf(a, m), maxPercent / 100.0, maxPercent);
    assert WithinAllowance(ValueOf(a, m), ValueOf(b, m), DirectionOf(m), maxPercent);
  }

  lemma Allowance(value: real, share: real, maxPercent: real)
    requires share == maxPercent / 100.0
    ensures value >= 0.0 ==> value + Abs(value) * maxPercent / 100.0 == Times(value, 1.0 + share)
    ensures value >= 0.0 ==> value - Abs(value) * maxPercent / 100.0 == Times(value, 1.0 - share)
    ensures value < 0.0 ==> value + Abs(value) * maxPercent / 100.0 == Times(value, 1.0 - share)
  {
    assert Abs(value) * maxPercent / 100.0 == Abs(value) * share;
  }

  // Bounds along a plain sequence of values.

  lemma {:induction false} GrowthOver(xs: seq<real>, factor: real)
    requires xs != [] && factor >= 0.0
    requires forall i :: 0 <= i < |xs| - 1 ==> xs[i + 1] <= Times(xs[i], factor)
    ensures xs[|xs| - 1] <= Times(xs[0], Power(factor, |xs| - 1))
  {
    var n := |xs| - 1;
    if n > 0 {
      GrowthOver(xs[..n], factor);
      StepUp(xs[0], xs[n - 1], xs[n], Power(factor, n - 1), factor);
    }
  }

  lemma {:induction false} DecayOver(xs: seq<real>, factor: real)
    requires xs != [] && factor >= 0.0
    requires forall i :: 0 <= i < |xs| - 1 ==> xs[i + 1] >= Times(xs[i], factor)
    ensures xs[|xs| - 1] >= Times(xs[0], Power(factor, |xs| - 1))
  {
    var n := |xs| - 1;
    if n > 0 {
      DecayOver(xs[..n], factor);
      StepDown(xs[0], xs[n - 1], xs[n], Power(factor, n - 1), factor);
    }
  }

  lemma {:induction false} NegativeOver(xs: seq<real>, factor: real)
    requires xs != [] && factor >= 0.0 && xs[0] < 0.0
    requires forall i :: 0 <= i < |xs| - 1 ==> xs[i] != 0.0 && (xs[i] < 0.0 ==> xs[i + 1] <= Times(xs[i], factor))
    ensures xs[|xs| - 1] <= Times(xs[0], Power(factor, |xs| - 1)) <= 0.0
  {
    var n := |xs| - 1;
    PowerNotNegative(factor, n);
    NegativeShare(xs[0], Power(factor, n));
    if n > 0 {
      NegativeOver(xs[..n], factor);
      assert xs[n - 1] < 0.0;
      StepUp(xs[0], xs[n - 1], xs[n], Power(factor, n - 1), factor);
    }
  }

  lemma {:induction false} SignedOver(xs: seq<real>, up: real, down: real)
    requires xs != [] && xs[0] > 0.0 && up >= 0.0 && down >= 0.0
    requires forall i :: 0 <= i < |xs| - 1 ==>
      && xs[i] != 0.0
      && (xs[i] > 0.0 ==> xs[i + 1] <= Times(xs[i], up)) && (xs[i] < 0.0 ==> xs[i + 1] <= Times(xs[i], down))
    ensures xs[|xs| - 1] <= Times(xs[0], Power(up, |xs| - 1))
  {
    var n := |xs| - 1;
    PowerNotNegative(up, n);
    ProductNotNegative(xs[0], Power(up, n));
    if n > 0 {
      SignedOver(xs[..n], up, down);
      if xs[n - 1] > 0.0 {
        StepUp(xs[0], xs[n - 1], xs[n], Power(up, n - 1), up);
      } else {
        NegativeShare(xs[n - 1], down);
      }
    }
  }

  lemma ProductNotNegative(a: real, b: real)
    requires a >= 0.0 && b >= 0.0
    ensures Times(a, b) >= 0.0
  {
  }

  lemma ProductPositive(a: real, b: real)
    requires a > 0.0 && b > 0.0
    ensures Times(a, b) > 0.0
  {
    assert a * b > 0.0;
  }

  lemma NegativeShare(x: real, k: real)
    requires x < 0.0 && k >= 0.0
    ensures Times(x, k) <= 0.0
  {
  }

  function Series(reports: seq<Report>, m: Metric): seq<real> {
    seq(|reports|, i requires 0 <= i < |reports| => ValueOf(reports[i], m))
  }

  /** Thickness grows by at most (1 + p/100)^n over n passing comparisons, for any p. */
  lemma ThicknessOverChain(reports: seq<Report>, maxPercent: real, m: Metric)
    requires Chain(reports, maxPercent) && maxPercent >= 0.0 && (m.ThicknessMean? || m.ThicknessP95?)
    ensures var n := |reports| - 1;
      ValueOf(reports[n], m) <= Times(ValueOf(reports[0], m), Power(1.0 + maxPercent / 100.0, n))
  {
    forall i | 0 <= i < |reports| - 1 {
      PassingStep(reports[i], reports[i + 1], maxPercent, m);
    }
    GrowthOver(Series(reports, m), 1.0 + maxPercent / 100.0);
  }

  predicate ShareKept(reports: seq<Report>, maxPercent: real, m: Metric)
    requires reports != []
  {
    var n := |reports| - 1;
    ValueOf(reports[n], m) >= Times(ValueOf(reports[0], m), Power(1.0 - maxPercent / 100.0, n))
  }

  predicate NegativeEntropyKept(reports: seq<Report>, maxPercent: real)
    requires reports != []
  {
    var n := |reports| - 1;
    reports[0].entropy < 0.0 ==>
      reports[n].entropy <= Times(reports[0].entropy, Power(1.0 - maxPercent / 100.0, n)) <= 0.0
  }

  predicate PositiveEntropyBounded(reports: seq<Report>, maxPercent: real)
    requires reports != []
  {
    var n := |reports| - 1;
    reports[0].entropy > 0.0 ==> reports[n].entropy <= Times(reports[0].entropy, Power(1.0 + maxPercent / 100.0, n))
  }

  /** For p <= 100, coverage and valid fraction keep at least (1 - p/100)^n of the start. */
  lemma SharesOverChain(reports: seq<Report>, maxPercent: real, m: Metric)
    requires Chain(reports, maxPercent) && 0.0 <= maxPercent <= 100.0 && (m.Coverage? || m.ValidFraction?)
    ensures ShareKept(reports, maxPercent, m)
  {
    forall i | 0 <= i < |reports| - 1 {
      PassingStep(reports[i], reports[i + 1], maxPercent, m);
    }
    DecayOver(Series(reports, m), 1.0 - maxPercent / 100.0);
  }

  /** For p <= 100, an entropy that starts negative stays at or below the (1 - p/100)^n share of its start, and
      one that starts positive stays at or below (1 + p/100)^n times its start. */
  lemma EntropyOverChain(reports: seq<Report>, maxPercent: real)
    requires Chain(reports, maxPercent) && 0.0 <= maxPercent <= 100.0
    ensures NegativeEntropyKept(reports, maxPercent) && PositiveEntropyBounded(reports, maxPercent)
  {
    var xs, up, down := Series(reports, Entropy), 1.0 + maxPercent / 100.0, 1.0 - maxPercent / 100.0;
    forall i | 0 <= i < |xs| - 1
      ensures xs[i] != 0.0 && (xs[i] < 0.0 ==> xs[i + 1] <= Times(xs[i], down))
      ensures xs[i] > 0.0 ==> xs[i + 1] <= Times(xs[i], up)
    {
      PassingStep(reports[i], reports[i + 1], maxPercent, Entropy);
    }
    if reports[0].entropy < 0.0 {
      NegativeOver(xs, down);
    }
    if reports[0].entropy > 0.0 {
      SignedOver(xs, up, down);
    }
  }

  // ---------- beyond p = 100 ----------

  /** Reports that differ in coverage, valid fraction and entropy only. */
  function Sketch(share: real, entropy: real): Report {
    Report(1, 1, 1.0, 1.0, 1, true, 1, 0.5, 1, 1.0, 1.0, 1.0, 1.0, share, share, entropy)
  }

  lemma PowerTwo(x: real)
    ensures Power(x, 2) == Times(x, x)
  {
    assert Power(x, 2) == Times(Power(x, 1), x) && Power(x, 1) == Times(Power(x, 0), x);
  }

  lemma SketchesPass(share: real, next: real, entropy: real, nextEntropy: real, maxPercent: real)
    requires maxPercent >= 100.0 && 0.0 < share <= 1.0 && 0.0 < next <= 1.0 && entropy != 0.0
    requires nextEntropy - entropy <= Times(Abs(entropy), maxPercent / 100.0)
    ensures var a, b := Sketch(share, entropy), Sketch(next, nextEntropy);
      Comparable(a, b, maxPercent) && Passes(a, b, maxPercent)
  {
    var a, b := Sketch(share, entropy), Sketch(next, nextEntropy);
    ShareAllowance(share, maxPercent);
    Shared(entropy, maxPercent);
    forall m | m in METRICS ensures WithinAllowance(ValueOf(a, m), ValueOf(b, m), DirectionOf(m), maxPercent) {
      if m.ThicknessMean? || m.ThicknessP95? {
        assert Worsening(ValueOf(a, m), ValueOf(b, m), DirectionOf(m)) == 0.0;
        ShareAllowance(1.0, maxPercent);
      }
    }
  }

  lemma ShareAllowance(share: real, maxPercent: real)
    requires share > 0.0 && maxPercent >= 100.0
    ensures Abs(share) * maxPercent / 100.0 >= share
  {
    assert share * maxPercent >= share * 100.0;
  }

  lemma Shared(entropy: real, maxPercent: real)
    ensures Abs(entropy) * maxPercent / 100.0 == Times(Abs(entropy), maxPercent / 100.0)
  {
  }

  lemma Little(down: real) returns (little: real)
    requires down < 0.0
    ensures 0.0 < little <= 0.25 && little < 0.5 * Times(down, down)
  {
    var size := -down;
    SquareAgainstOne(size);
    assert Times(down, down) == Times(size, size);
    little := if size < 1.0 then Times(size, size) / 4.0 else 0.25;
  }

  lemma SquareAgainstOne(x: real)
    requires x > 0.0
    ensures 0.0 < Times(x, x) && (x < 1.0 <==> Times(x, x) < 1.0)
  {
    ProductPositive(x, x);
    if x < 1.0 {
      ProductPositive(x, 1.0 - x);
      assert Times(x, 1.0 - x) == x - Times(x, x);
    } else {
      ProductNotNegative(x, x - 1.0);
      assert Times(x, x - 1.0) == Times(x, x) - x;
    }
  }

  /** With any p beyond 100 two steps may leave less than the square of 1 - p/100. */
  lemma SharesLost(maxPercent: real) returns (reports: seq<Report>)
    requires maxPercent > 100.0
    ensures Chain(reports, maxPercent)
    ensures !ShareKept(reports, maxPercent, Coverage) && !ShareKept(reports, maxPercent, ValidFraction)
  {
    var down := 1.0 - maxPercent / 100.0;
    var little := Little(down);
    PowerTwo(down);
    SketchesPass(0.5, little, 1.0, 1.0, maxPercent);
    SketchesPass(little, little, 1.0, 1.0, maxPercent);
    reports := [Sketch(0.5, 1.0), Sketch(little, 1.0), Sketch(little, 1.0)];
  }

  /** An entropy of -1 may rise above zero in one step. */
  lemma NegativeEntropyLost(maxPercent: real) returns (reports: seq<Report>)
    requires maxPercent > 100.0
    ensures Chain(reports, maxPercent) && !NegativeEntropyKept(reports, maxPercent)
  {
    var risen := maxPercent / 100.0 - 1.0;
    var down := 1.0 - maxPercent / 100.0;
    var little := Little(down);
    PowerTwo(down);
    SketchesPass(1.0, 1.0, -1.0, risen, maxPercent);
    SketchesPass(1.0, 1.0, risen, risen, maxPercent);
    reports := [Sketch(1.0, -1.0), Sketch(1.0, risen), Sketch(1.0, risen)];
  }

  /** An entropy of 1 may drop far below zero and come back up higher than by growing steadily. */
  lemma PositiveEntropyLost(maxPercent: real) returns (reports: seq<Report>)
    requires maxPercent > 100.0
    ensures Chain(reports, maxPercent) && !PositiveEntropyBounded(reports, maxPercent)
  {
    var up, rise := 1.0 + maxPercent / 100.0, maxPercent / 100.0 - 1.0;
    var depth := (up * up) / rise + 1.0;
    assert up * up > 0.0 && rise > 0.0 && (up * up) / rise > 0.0;
    assert depth * rise == up * up + rise;
    assert depth * (maxPercent / 100.0) == depth * rise + depth;
    PowerTwo(up);
    SketchesPass(1.0, 1.0, 1.0, -depth, maxPercent);
    SketchesPass(1.0, 1.0, -depth, depth * rise, maxPercent);
    reports := [Sketch(1.0, 1.0), Sketch(1.0, -depth), Sketch(1.0, depth * rise)];
  }

  /** The bounds on coverage, valid fraction and entropy hold along every chain exactly for p <= 100. */
  lemma BoundsHoldExactly(maxPercent: real, m: Metric)
    requires maxPercent >= 0.0 && (m.Coverage? || m.ValidFraction?)
    ensures (forall reports :: Chain(reports, maxPercent) ==> ShareKept(reports, maxPercent, m)) <==> maxPercent <= 100.0
    ensures (forall reports :: Chain(reports, maxPercent) ==> NegativeEntropyKept(reports, maxPercent)) <==>
      maxPercent <= 100.0
    ensures (forall reports :: Chain(reports, maxPercent) ==> PositiveEntropyBounded(reports, maxPercent)) <==>
      maxPercent <= 100.0
  {
    if maxPercent <= 100.0 {
      forall reports | Chain(reports, maxPercent)
        ensures ShareKept(reports, maxPercent, m)
        ensures NegativeEntropyKept(reports, maxPercent) && PositiveEntropyBounded(reports, maxPercent)
      {
        SharesOverChain(reports, maxPercent, m);
        EntropyOverChain(reports, maxPercent);
      }
    } else {
      var shares := SharesLost(maxPercent);
      var negative := NegativeEntropyLost(maxPercent);
      var positive := PositiveEntropyLost(maxPercent);
    }
  }
}
