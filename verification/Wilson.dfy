/** The Wilson score interval, in real arithmetic.

    The square root and the quantile function of the normal distribution are
    parameters; `Lawful` is all the theorems assume of them. */
module Wilson {
  import opened Prelude
  import opened RealArithmetic

  datatype Library = Library(sqrt: real -> real, inverseCdf: real -> real)

  ghost predicate Lawful(lib: Library) {
    && (forall x: real :: x >= 0.0 ==> lib.sqrt(x) >= 0.0 && lib.sqrt(x) * lib.sqrt(x) == x)
    && (forall p: real, q: real :: 0.0 < p < q < 1.0 ==> lib.inverseCdf(p) < lib.inverseCdf(q))
    && lib.inverseCdf(0.5) == 0.0
  }

  /** Given a square root, the rest can be met: real numbers are not built here. */
  lemma LawfulFromSquareRoot(sqrt: real -> real)
    requires forall x: real :: x >= 0.0 ==> sqrt(x) >= 0.0 && sqrt(x) * sqrt(x) == x
    ensures exists lib: Library :: lib.sqrt == sqrt && Lawful(lib)
  {
    assert Lawful(Library(sqrt, p => p - 0.5));
  }

  datatype Interval = Interval(estimate: real, lower: real, upper: real)

  datatype Estimate = NoObservations | Observed(interval: Interval)

  // ----- The three copies ---------------------------------------------------

  /** Component 5: `StatisticalAnalyzer.proportion`. */
  function Proportion(lib: Library, successes: int, trials: int, confidence: real): Option<Estimate> {
    if trials < 0 then None
    else if successes < 0 || successes > trials then None
    else if !(0.0 < confidence < 1.0) then None
    else if trials == 0 then Some(NoObservations)
    else
      var alpha := 1.0 - confidence;
      Some(Observed(Score(lib, successes, trials, lib.inverseCdf(1.0 - alpha / 2.0))))
  }

  function Score(lib: Library, successes: nat, trials: nat, z: real): Interval
    requires trials > 0
  {
    var n := trials as real;
    var p := successes as real / n;
    var centre, halfWidth := Centre(p, n, z), HalfWidth(lib, p, n, z);
    Interval(p, Max(0.0, centre - halfWidth), Min(1.0, centre + halfWidth))
  }

  function Centre(p: real, n: real, z: real): real
    requires n > 0.0
  {
    NonNegativeDenominator(n, z);
    (p + z * z / (2.0 * n)) / (1.0 + z * z / n)
  }

  function HalfWidth(lib: Library, p: real, n: real, z: real): real
    requires n > 0.0
  {
    NonNegativeDenominator(n, z);
    z * lib.sqrt(p * (1.0 - p) / n + z * z / (4.0 * n * n)) / (1.0 + z * z / n)
  }

  lemma NonNegativeDenominator(n: real, z: real)
    requires n > 0.0
    ensures z * z / n >= 0.0
  {
    assert z * z >= 0.0;
  }

  /** Component 7: `proportion_confidence_interval`, which reports no interval
      when there are no trials and checks its arguments in another order. */
  function ProcessInterval(lib: Library, successes: int, total: int, confidence: real)
    : Option<Option<(real, real)>>
  {
    if successes < 0 then None
    else if total < 0 then None
    else if successes > total then None
    else if !(0.0 < confidence < 1.0) then None
    else if total == 0 then Some(None)
    else
      var alpha := 1.0 - confidence;
      var z := lib.inverseCdf(1.0 - alpha / 2.0);
      Some(Some(ProcessBounds(lib, successes as real / total as real, total as real, z)))
  }

  function ProcessBounds(lib: Library, proportion: real, n: real, z: real): (real, real)
    requires n > 0.0
  {
    NonNegativeDenominator(n, z);
    var denominator := 1.0 + (z * z / n);
    var centre := (proportion + z * z / (2.0 * n)) / denominator;
    var halfWidth := z * lib.sqrt((proportion * (1.0 - proportion) / n) + (z * z / (4.0 * n * n))) / denominator;
    (Max(0.0, centre - halfWidth), Min(1.0, centre + halfWidth))
  }

  /** Component 8: `proportion_metric`. */
  function EconomicsMetric(lib: Library, numerator: int, denominator: int, confidence: real): Option<Estimate> {
    if numerator < 0 || denominator < 0 then None
    else if numerator > denominator then None
    else if !(0.0 < confidence < 1.0) then None
    else if denominator == 0 then Some(NoObservations)
    else
      var estimate := numerator as real / denominator as real;
      var z := lib.inverseCdf(1.0 - (1.0 - confidence) / 2.0);
      Some(Observed(EconomicsInterval(lib, estimate, denominator as real, z)))
  }

  function EconomicsInterval(lib: Library, estimate: real, n: real, z: real): Interval
    requires n > 0.0
  {
    var zSquared := z * z;
    NonNegativeDenominator(n, z);
    var adjustment := 1.0 + zSquared / n;
    var centre := (estimate + zSquared / (2.0 * n)) / adjustment;
    var halfWidth := z * lib.sqrt(estimate * (1.0 - estimate) / n + zSquared / (4.0 * n * n)) / adjustment;
    Interval(estimate, Max(0.0, centre - halfWidth), Min(1.0, centre + halfWidth))
  }

  /** The three copies accept the same arguments and return the same bounds. */
  lemma CopiesAgree(lib: Library, successes: int, trials: int, confidence: real)
    ensures EconomicsMetric(lib, successes, trials, confidence) == Proportion(lib, successes, trials, confidence)
    ensures
      match Proportion(lib, successes, trials, confidence)
      case None => ProcessInterval(lib, successes, trials, confidence) == None
      case Some(NoObservations) => ProcessInterval(lib, successes, trials, confidence) == Some(None)
      case Some(Observed(i)) =>
        ProcessInterval(lib, successes, trials, confidence) == Some(Some((i.lower, i.upper)))
  {
    if 0 <= successes <= trials && trials > 0 && 0.0 < confidence < 1.0 {
      var n := trials as real;
      Formula(lib, successes as real / n, n, Quantile(lib, confidence));
    }
  }

  lemma Formula(lib: Library, p: real, n: real, z: real)
    requires n > 0.0
    ensures z * z / n >= 0.0
    ensures Centre(p, n, z) == (p + z * z / (2.0 * n)) / (1.0 + z * z / n)
    ensures HalfWidth(lib, p, n, z)
         == z * lib.sqrt(p * (1.0 - p) / n + z * z / (4.0 * n * n)) / (1.0 + z * z / n)
    ensures
      var bounds := ProcessBounds(lib, p, n, z);
      && bounds == (Max(0.0, Centre(p, n, z) - HalfWidth(lib, p, n, z)),
                    Min(1.0, Centre(p, n, z) + HalfWidth(lib, p, n, z)))
      && EconomicsInterval(lib, p, n, z) == Interval(p, bounds.0, bounds.1)
  {
    NonNegativeDenominator(n, z);
  }

  /** The quantile a confidence level selects. */
  function Quantile(lib: Library, confidence: real): real {
    lib.inverseCdf(1.0 - (1.0 - confidence) / 2.0)
  }

  /** It is positive and grows with the level. */
  lemma QuantileGrows(lib: Library, lower: real, higher: real)
    requires Lawful(lib) && 0.0 < lower <= higher < 1.0
    ensures 0.0 < Quantile(lib, lower) <= Quantile(lib, higher)
  {
    var p, q := 1.0 - (1.0 - lower) / 2.0, 1.0 - (1.0 - higher) / 2.0;
    assert 0.0 < 0.5 < p <= q < 1.0;
    assert p == q || p < q;
  }

  // ----- Algebra of the score equation --------------------------------------

  /** `w` stands for z^2/n; `u`, `v` and `d` for the centre, the half width and the
      denominator, all multiplied by the denominator. */
  predicate Scaled(w: real, p: real, u: real, v: real, d: real) {
    && w >= 0.0 && 0.0 <= p <= 1.0 && d == 1.0 + w
    && u == p + w / 2.0 && v >= 0.0 && v * v == w * (p * (1.0 - p)) + w * w / 4.0
  }

  /** The score inequality with everything on one side. */
  function Excess(w: real, p: real, x: real): real {
    (x - p) * (x - p) - w * (x * (1.0 - x))
  }

  /** Completing the square in the score inequality. */
  lemma CompleteTheSquare(w: real, p: real, u: real, v: real, d: real, x: real)
    requires Scaled(w, p, u, v, d)
    ensures d * Excess(w, p, x) == (d * x - u) * (d * x - u) - v * v
  {
    calc {
      (d * x - u) * (d * x - u) - v * v;
      { assert u * u - v * v == d * (p * p) by { CentreDominates(w, p, u, v, d); } }
      (d * x) * (d * x) - 2.0 * (d * x) * u + d * (p * p);
      { assert 2.0 * (d * x) * u == d * (x * (2.0 * u)); assert (d * x) * (d * x) == d * (d * (x * x)); }
      d * (d * (x * x)) - d * (x * (2.0 * u)) + d * (p * p);
      d * (d * (x * x) - x * (2.0 * u) + p * p);
      { assert d * (x * x) == x * x + w * (x * x); assert x * (2.0 * u) == 2.0 * (x * p) + x * w; }
      d * (x * x + w * (x * x) - 2.0 * (x * p) - x * w + p * p);
      d * Excess(w, p, x);
    }
  }

  lemma CentreDominates(w: real, p: real, u: real, v: real, d: real)
    requires Scaled(w, p, u, v, d)
    ensures u * u - v * v == d * (p * p)
  {
    assert u * u == p * p + p * w + w * w / 4.0;
    assert w * (p * (1.0 - p)) == w * p - w * (p * p);
  }

  /** Membership in the scaled interval is the score inequality. */
  lemma ScaledMembership(w: real, p: real, u: real, v: real, d: real, x: real)
    requires Scaled(w, p, u, v, d)
    ensures u - v <= d * x <= u + v <==> Excess(w, p, x) <= 0.0
    ensures u - v < d * x < u + v <==> Excess(w, p, x) < 0.0
  {
    CompleteTheSquare(w, p, u, v, d, x);
    SquareBound(d * x - u, v);
    ScaleKeepsOrder(d, Excess(w, p, x), 0.0);
  }

  /** The unclamped interval already lies in [0, 1]. */
  lemma ScaledRange(w: real, p: real, u: real, v: real, d: real)
    requires Scaled(w, p, u, v, d)
    ensures 0.0 <= u - v && u + v <= d
  {
    ScaledLower(w, p, u, v, d);
    var q, t := 1.0 - p, d - u;
    assert q * (1.0 - q) == p * (1.0 - p);
    ScaledLower(w, q, t, v, d);
  }

  lemma ScaledLower(w: real, p: real, u: real, v: real, d: real)
    requires Scaled(w, p, u, v, d)
    ensures 0.0 <= u - v
  {
    CentreDominates(w, p, u, v, d);
    NonNegativeProduct(p, p);
    NonNegativeProduct(d, p * p);
    SquareBound(v, u);
  }

  // ----- From the formula to its scaled form --------------------------------

  /** z^2/n. */
  function Weight(n: real, z: real): real
    requires n > 0.0
  {
    z * z / n
  }

  lemma FormulaIsScaled(lib: Library, p: real, n: real, z: real)
    requires Lawful(lib) && n > 0.0 && z > 0.0 && 0.0 <= p <= 1.0
    ensures
      var w := Weight(n, z);
      var d := 1.0 + w;
      Scaled(w, p, d * Centre(p, n, z), d * HalfWidth(lib, p, n, z), d)
  {
    NonNegativeDenominator(n, z);
    ScaledCentre(p, n, z);
    var r := ScaledHalfWidth(lib, p, n, z);
    NonNegativeProduct(z, r);
  }

  lemma ScaledCentre(p: real, n: real, z: real)
    requires n > 0.0
    ensures (1.0 + Weight(n, z)) * Centre(p, n, z) == p + Weight(n, z) / 2.0
  {
    NonNegativeDenominator(n, z);
    HalfWeight(n, z);
  }

  lemma ScaledHalfWidth(lib: Library, p: real, n: real, z: real) returns (r: real)
    requires Lawful(lib) && n > 0.0 && 0.0 <= p <= 1.0
    ensures r >= 0.0 && (1.0 + Weight(n, z)) * HalfWidth(lib, p, n, z) == z * r
    ensures (z * r) * (z * r) == Weight(n, z) * (p * (1.0 - p)) + Weight(n, z) * Weight(n, z) / 4.0
  {
    NonNegativeDenominator(n, z);
    NonNegativeProduct(n, n);
    VarianceIsNonNegative(p, n, z);
    var e := p * (1.0 - p) / n + z * z / (4.0 * n * n);
    r := lib.sqrt(e);
    ScaledVariance(p, n, z);
    assert (z * r) * (z * r) == z * z * (r * r);
  }

  lemma HalfWeight(n: real, z: real)
    requires n > 0.0
    ensures z * z / (2.0 * n) == Weight(n, z) / 2.0
  {}

  lemma VarianceIsNonNegative(p: real, n: real, z: real)
    requires n > 0.0 && 0.0 <= p <= 1.0
    ensures 4.0 * n * n > 0.0
    ensures p * (1.0 - p) / n + z * z / (4.0 * n * n) >= 0.0
  {
    NonNegativeProduct(p, 1.0 - p);
    Quotient(p * (1.0 - p), n);
    SquareIsNonNegative(z);
    var k := 4.0 * n * n;
    PositiveProduct(4.0 * n, n, k);
    Quotient(z * z, k);
  }

  lemma ScaledVariance(p: real, n: real, z: real)
    requires n > 0.0
    ensures 4.0 * n * n > 0.0
    ensures z * z * (p * (1.0 - p) / n + z * z / (4.0 * n * n))
            == Weight(n, z) * (p * (1.0 - p)) + Weight(n, z) * Weight(n, z) / 4.0
  {
    var a, b := z * z, p * (1.0 - p);
    DivideOut(a, b, n);
    DivideTwice(a, n);
  }

  lemma DivideTwice(a: real, n: real)
    requires n > 0.0
    ensures 4.0 * n * n > 0.0
    ensures a * (a / (4.0 * n * n)) == (a / n) * (a / n) / 4.0
  {
    var k := 4.0 * n * n;
    PositiveProduct(4.0 * n, n, k);
    var x, y := a / n, a / k;
    assert x * n == a && y * k == a;
    assert a * y * k == a * a;
    assert x * x / 4.0 * k == (x * n) * (x * n);
    Cancel(a * y, x * x / 4.0, k);
  }

  // ----- What the interval is -----------------------------------------------

  /** The score inequality: `x` is within `z` standard errors of the estimate `p`
      from `n` trials, the errors being those a true proportion `x` would give. */
  predicate Accepts(p: real, n: real, z: real, x: real) {
    n * ((x - p) * (x - p)) <= z * z * (x * (1.0 - x))
  }

  predicate StrictlyAccepts(p: real, n: real, z: real, x: real) {
    n * ((x - p) * (x - p)) < z * z * (x * (1.0 - x))
  }

  predicate WithinScore(successes: nat, trials: nat, z: real, x: real)
    requires trials > 0
  {
    Accepts(successes as real / trials as real, trials as real, z, x)
  }

  /** The interval is exactly the set of proportions the score test does not
      reject; it never needs clamping, and it contains the estimate. */
  lemma IntervalIsScoreSet(lib: Library, successes: nat, trials: nat, z: real)
    requires Lawful(lib) && successes <= trials && trials > 0 && z > 0.0
    ensures
      var n, i := trials as real, Score(lib, successes, trials, z);
      && i.lower == Centre(i.estimate, n, z) - HalfWidth(lib, i.estimate, n, z)
      && i.upper == Centre(i.estimate, n, z) + HalfWidth(lib, i.estimate, n, z)
      && 0.0 <= i.lower <= i.estimate <= i.upper <= 1.0
      && forall x: real :: i.lower <= x <= i.upper <==> WithinScore(successes, trials, z, x)
  {
    var i := Score(lib, successes, trials, z);
    EstimateIsProportion(successes, trials);
    Unclamped(lib, successes, trials, z);
    forall x: real
      ensures i.lower <= x <= i.upper <==> WithinScore(successes, trials, z, x)
    {
      ScoreMembership(lib, successes, trials, z, x);
    }
    EstimateIsWithin(successes, trials, z);
    assert WithinScore(successes, trials, z, i.estimate);
  }

  /** What component 5 returns: nothing for impossible arguments, no interval without trials,
      and otherwise the share of successes with exactly the proportions that the score test at
      the confidence level's two-sided quantile does not reject. */
  lemma EntryPointMeans(lib: Library, successes: int, trials: int, confidence: real)
    requires Lawful(lib)
    ensures Proportion(lib, successes, trials, confidence) == None <==>
      !(0 <= successes <= trials) || !(0.0 < confidence < 1.0)
    ensures Proportion(lib, successes, trials, confidence) == Some(NoObservations) <==>
      successes == trials == 0 && 0.0 < confidence < 1.0
    ensures
      match Proportion(lib, successes, trials, confidence)
      case Some(Observed(i)) =>
        && trials > 0 && i.estimate == successes as real / trials as real
        && 0.0 <= i.lower <= i.estimate <= i.upper <= 1.0
        && var n, z := trials as real, lib.inverseCdf(1.0 - (1.0 - confidence) / 2.0);
           forall x: real :: i.lower <= x <= i.upper <==> Accepts(i.estimate, n, z, x)
      case _ => true
  {
    if 0 <= successes <= trials && trials > 0 && 0.0 < confidence < 1.0 {
      QuantileGrows(lib, confidence, confidence);
      IntervalIsScoreSet(lib, successes, trials, Quantile(lib, confidence));
      var i := Score(lib, successes, trials, Quantile(lib, confidence));
      assert Proportion(lib, successes, trials, confidence) == Some(Observed(i));
      var p, n, z := i.estimate, trials as real, Quantile(lib, confidence);
      forall x: real
        ensures i.lower <= x <= i.upper <==> Accepts(p, n, z, x)
      {
        assert WithinScore(successes, trials, z, x) <==> i.lower <= x <= i.upper;
      }
    }
  }

  lemma EstimateIsProportion(successes: nat, trials: nat)
    requires successes <= trials && trials > 0
    ensures 0.0 <= successes as real / trials as real <= 1.0
  {
    var p, n := successes as real / trials as real, trials as real;
    assert p * n == successes as real;
  }

  lemma EstimateIsWithin(successes: nat, trials: nat, z: real)
    requires successes <= trials && trials > 0
    ensures WithinScore(successes, trials, z, successes as real / trials as real)
  {
    var p := successes as real / trials as real;
    EstimateIsProportion(successes, trials);
    SquareIsNonNegative(z);
    NonNegativeProduct(p, 1.0 - p);
    NonNegativeProduct(z * z, p * (1.0 - p));
  }

  lemma Unclamped(lib: Library, successes: nat, trials: nat, z: real)
    requires Lawful(lib) && successes <= trials && trials > 0 && z > 0.0
    ensures
      var n, i := trials as real, Score(lib, successes, trials, z);
      && i.lower == Centre(i.estimate, n, z) - HalfWidth(lib, i.estimate, n, z)
      && i.upper == Centre(i.estimate, n, z) + HalfWidth(lib, i.estimate, n, z)
      && 0.0 <= i.lower && i.upper <= 1.0
  {
    EstimateIsProportion(successes, trials);
    ClampsAreIdle(lib, successes as real / trials as real, trials as real, z);
  }

  lemma ClampsAreIdle(lib: Library, p: real, n: real, z: real)
    requires Lawful(lib) && n > 0.0 && z > 0.0 && 0.0 <= p <= 1.0
    ensures 0.0 <= Centre(p, n, z) - HalfWidth(lib, p, n, z)
    ensures Centre(p, n, z) + HalfWidth(lib, p, n, z) <= 1.0
  {
    FormulaIsScaled(lib, p, n, z);
    WeightIsNonNegative(n, z);
    Rescale(Weight(n, z), p, Centre(p, n, z), HalfWidth(lib, p, n, z));
  }

  lemma WeightIsNonNegative(n: real, z: real)
    requires n > 0.0
    ensures Weight(n, z) >= 0.0
  {
    NonNegativeDenominator(n, z);
  }

  lemma Rescale(w: real, p: real, c: real, h: real)
    requires w >= 0.0 && Scaled(w, p, (1.0 + w) * c, (1.0 + w) * h, 1.0 + w)
    ensures 0.0 <= c - h && c + h <= 1.0
  {
    var d := 1.0 + w;
    ScaledRange(w, p, d * c, d * h, d);
    Distribute(d, c, h);
    ScaleKeepsOrder(d, 0.0, c - h);
    ScaleKeepsOrder(d, c + h, 1.0);
  }

  lemma RescaleAt(w: real, p: real, c: real, h: real, x: real)
    requires w >= 0.0 && Scaled(w, p, (1.0 + w) * c, (1.0 + w) * h, 1.0 + w)
    ensures c - h <= x <= c + h <==> Excess(w, p, x) <= 0.0
    ensures c - h < x < c + h <==> Excess(w, p, x) < 0.0
  {
    var d := 1.0 + w;
    var u, v := d * c, d * h;
    ScaledMembership(w, p, u, v, d, x);
    WithinScaled(d, c, h, u, v, x, d * x);
  }

  lemma WithinScaled(d: real, c: real, h: real, u: real, v: real, x: real, y: real)
    requires d > 0.0 && u == d * c && v == d * h && y == d * x
    ensures u - v <= y <= u + v <==> c - h <= x <= c + h
    ensures u - v < y < u + v <==> c - h < x < c + h
  {
    Distribute(d, c, h);
    ScaleKeepsOrder(d, c - h, x);
    ScaleKeepsOrder(d, x, c + h);
  }

  lemma Distribute(d: real, c: real, h: real)
    ensures d * c - d * h == d * (c - h) && d * c + d * h == d * (c + h)
  {}

  lemma ScoreMembership(lib: Library, successes: nat, trials: nat, z: real, x: real)
    requires Lawful(lib) && successes <= trials && trials > 0 && z > 0.0
    ensures
      var p, n, i := successes as real / trials as real, trials as real, Score(lib, successes, trials, z);
      && (i.lower <= x <= i.upper <==> Accepts(p, n, z, x))
      && (i.lower < x < i.upper <==> StrictlyAccepts(p, n, z, x))
  {
    EstimateIsProportion(successes, trials);
    Unclamped(lib, successes, trials, z);
    Membership(lib, successes as real / trials as real, trials as real, z, x);
  }

  lemma Membership(lib: Library, p: real, n: real, z: real, x: real)
    requires Lawful(lib) && n > 0.0 && z > 0.0 && 0.0 <= p <= 1.0
    ensures Centre(p, n, z) - HalfWidth(lib, p, n, z) <= x <= Centre(p, n, z) + HalfWidth(lib, p, n, z)
       <==> Accepts(p, n, z, x)
    ensures Centre(p, n, z) - HalfWidth(lib, p, n, z) < x < Centre(p, n, z) + HalfWidth(lib, p, n, z)
       <==> StrictlyAccepts(p, n, z, x)
  {
    FormulaIsScaled(lib, p, n, z);
    WeightIsNonNegative(n, z);
    RescaleAt(Weight(n, z), p, Centre(p, n, z), HalfWidth(lib, p, n, z), x);
    ExcessInTrials(n, z, p, x);
  }

  lemma ExcessInTrials(n: real, z: real, p: real, x: real)
    requires n > 0.0
    ensures Excess(Weight(n, z), p, x) <= 0.0 <==> Accepts(p, n, z, x)
    ensures Excess(Weight(n, z), p, x) < 0.0 <==> StrictlyAccepts(p, n, z, x)
  {
    var a, b, w := (x - p) * (x - p), x * (1.0 - x), Weight(n, z);
    ScaleExcess(n, w, z * z, a, b);
    assert Excess(w, p, x) == a - w * b;
    assert Accepts(p, n, z, x) <==> n * a <= z * z * b;
    assert StrictlyAccepts(p, n, z, x) <==> n * a < z * z * b;
  }

  lemma ScaleExcess(n: real, w: real, square: real, a: real, b: real)
    requires n > 0.0 && n * w == square
    ensures a - w * b <= 0.0 <==> n * a <= square * b
    ensures a - w * b < 0.0 <==> n * a < square * b
  {
    ScaleKeepsOrder(n, a, w * b);
    assert n * (w * b) == (n * w) * b;
  }

  // ----- Order ----------------------------------------------------------------

  /** Intervals nest as confidence grows. */
  lemma IntervalsNest(lib: Library, successes: nat, trials: nat, z: real, wider: real)
    requires Lawful(lib) && successes <= trials && trials > 0 && 0.0 < z <= wider
    ensures
      var inner, outer := Score(lib, successes, trials, z), Score(lib, successes, trials, wider);
      outer.lower <= inner.lower && inner.upper <= outer.upper
  {
    var inner, outer := Score(lib, successes, trials, z), Score(lib, successes, trials, wider);
    IntervalIsScoreSet(lib, successes, trials, z);
    IntervalIsScoreSet(lib, successes, trials, wider);
    WiderAccepts(successes, trials, z, wider, inner.lower);
    WiderAccepts(successes, trials, z, wider, inner.upper);
  }

  lemma WiderAccepts(successes: nat, trials: nat, z: real, wider: real, x: real)
    requires trials > 0 && 0.0 < z <= wider && 0.0 <= x <= 1.0
    requires WithinScore(successes, trials, z, x)
    ensures WithinScore(successes, trials, wider, x)
  {
    SquaresGrow(z, wider);
    NonNegativeProduct(x, 1.0 - x);
    NonNegativeProduct(wider * wider - z * z, x * (1.0 - x));
  }

  /** Raising the confidence level never narrows the reported interval. */
  lemma ConfidenceWidens(lib: Library, successes: nat, trials: nat, lower: real, higher: real)
    requires Lawful(lib) && successes <= trials && trials > 0 && 0.0 < lower <= higher < 1.0
    ensures
      var inner := Proportion(lib, successes, trials, lower).value.interval;
      var outer := Proportion(lib, successes, trials, higher).value.interval;
      outer.lower <= inner.lower <= inner.estimate == outer.estimate <= inner.upper <= outer.upper
  {
    QuantileGrows(lib, lower, higher);
    IntervalsNest(lib, successes, trials, Quantile(lib, lower), Quantile(lib, higher));
    IntervalIsScoreSet(lib, successes, trials, Quantile(lib, lower));
  }

  /** One more success moves both bounds strictly up. */
  lemma BoundsIncrease(lib: Library, fewer: nat, more: nat, trials: nat, z: real)
    requires Lawful(lib) && fewer < more <= trials && z > 0.0
    ensures
      var i, j := Score(lib, fewer, trials, z), Score(lib, more, trials, z);
      i.lower < j.lower && i.upper < j.upper
  {
    var i, j := Score(lib, fewer, trials, z), Score(lib, more, trials, z);
    IntervalIsScoreSet(lib, fewer, trials, z);
    IntervalIsScoreSet(lib, more, trials, z);
    EstimatesIncrease(fewer, more, trials);
    assert WithinScore(more, trials, z, j.lower) && WithinScore(fewer, trials, z, i.upper);
    if j.lower <= i.estimate {
      NearerIsInside(i.estimate, j.estimate, trials as real, z, j.lower);
      ScoreMembership(lib, fewer, trials, z, j.lower);
    }
    if j.estimate <= i.upper {
      NearerIsInside(j.estimate, i.estimate, trials as real, z, i.upper);
      ScoreMembership(lib, more, trials, z, i.upper);
    }
  }

  /** A proportion accepted from a farther estimate is accepted, with room to
      spare, from a nearer one on the same side. */
  lemma NearerIsInside(near: real, far: real, n: real, z: real, x: real)
    requires n > 0.0 && Accepts(far, n, z, x)
    requires x <= near < far || far < near <= x
    ensures StrictlyAccepts(near, n, z, x)
  {
    if near < far {
      SquaresGrow(near - x, far - x);
    } else {
      SquaresGrow(x - near, x - far);
    }
    ScaleKeepsOrder(n, (x - near) * (x - near), (x - far) * (x - far));
  }

  lemma EstimatesIncrease(fewer: nat, more: nat, trials: nat)
    requires fewer < more && trials > 0
    ensures fewer as real / trials as real < more as real / trials as real
  {
    var n, p, q := trials as real, fewer as real / trials as real, more as real / trials as real;
    assert n * p == fewer as real && n * q == more as real;
    ScaleKeepsOrder(n, p, q);
  }

  /** Counting failures instead of successes mirrors the interval. */
  lemma Complement(lib: Library, successes: nat, trials: nat, z: real)
    requires successes <= trials && trials > 0
    ensures
      var i, j := Score(lib, successes, trials, z), Score(lib, trials - successes, trials, z);
      j.estimate == 1.0 - i.estimate && j.lower == 1.0 - i.upper && j.upper == 1.0 - i.lower
  {
    var n := trials as real;
    var p, q := successes as real / n, (trials - successes) as real / n;
    Reflect(n, q, p, (trials - successes) as real, successes as real);
    ComplementCentre(p, n, z);
    ComplementHalfWidth(lib, p, n, z);
  }

  lemma ComplementHalfWidth(lib: Library, p: real, n: real, z: real)
    requires n > 0.0
    ensures HalfWidth(lib, 1.0 - p, n, z) == HalfWidth(lib, p, n, z)
  {
    NonNegativeDenominator(n, z);
    PositiveProduct(4.0 * n, n, 4.0 * n * n);
    assert (1.0 - p) * (1.0 - (1.0 - p)) == p * (1.0 - p);
  }

  lemma ComplementCentre(p: real, n: real, z: real)
    requires n > 0.0
    ensures Centre(1.0 - p, n, z) == 1.0 - Centre(p, n, z)
  {
    ScaledCentre(p, n, z);
    ScaledCentre(1.0 - p, n, z);
    WeightIsNonNegative(n, z);
    var h := Weight(n, z) / 2.0;
    Reflect(1.0 + Weight(n, z), Centre(1.0 - p, n, z), Centre(p, n, z), 1.0 - p + h, p + h);
  }

  lemma Reflect(d: real, a: real, b: real, s: real, t: real)
    requires d > 0.0 && d * a == s && d * b == t && s + t == d
    ensures a == 1.0 - b
  {
    assert (a + b) * d == d * a + d * b;
    Cancel(a + b, 1.0, d);
  }
}
