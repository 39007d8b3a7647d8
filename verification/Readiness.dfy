/** The readiness policy: which measurements qualify a platform. */
module Readiness {
  import opened Prelude
  import opened CampaignMetrics
  import opened RealArithmetic
  import Wilson

  datatype Policy = Policy(
    minimumGradableCases: int,
    minimumTaskSuccessLowerBound: real,
    minimumSafeReleaseLowerBound: real,
    maximumFalseReleaseUpperBound: real,
    maximumUngradableFraction: real,
    maximumPipelineErrorFraction: real)

  datatype Status = Qualified | NotQualified | InsufficientEvidence

  datatype EstimateName = TaskSuccess | SafeRelease | FalseReleaseRate

  datatype Reason =
    | TooFewGradableCases
    | InsufficientObservations(name: EstimateName)
    | NoBenchmarkCases
    | TaskSuccessTooLow | SafeReleaseTooLow | FalseReleaseTooHigh
    | UngradableFractionTooHigh | PipelineErrorFractionTooHigh
    | AllRequirementsSatisfied

  datatype Decision = Decision(status: Status, reasons: seq<Reason>)

  // ----- Specification --------------------------------------------------------

  function EstimateOf(m: Metrics, name: EstimateName): ProportionEstimate {
    match name
    case TaskSuccess => m.taskSuccess
    case SafeRelease => m.safeRelease
    case FalseReleaseRate => m.falseReleaseRate
  }

  predicate Bounded(e: ProportionEstimate) { e.lower.Some? && e.upper.Some? }

  predicate Observed(m: Metrics) {
    Bounded(m.taskSuccess) && Bounded(m.safeRelease) && Bounded(m.falseReleaseRate)
  }

  predicate Meets(m: Metrics, p: Policy) {
    && Observed(m)
    && m.taskSuccess.lower.value >= p.minimumTaskSuccessLowerBound
    && m.safeRelease.lower.value >= p.minimumSafeReleaseLowerBound
    && m.falseReleaseRate.upper.value <= p.maximumFalseReleaseUpperBound
    && m.ungradable as real <= p.maximumUngradableFraction * m.total as real
    && m.pipelineErrors as real <= p.maximumPipelineErrorFraction * m.total as real
  }

  /** The requirement a reason names is violated. */
  predicate Violated(m: Metrics, p: Policy, reason: Reason) {
    match reason
    case InsufficientObservations(name) => !Bounded(EstimateOf(m, name))
    case TaskSuccessTooLow =>
      m.taskSuccess.lower.Some? && m.taskSuccess.lower.value < p.minimumTaskSuccessLowerBound
    case SafeReleaseTooLow =>
      m.safeRelease.lower.Some? && m.safeRelease.lower.value < p.minimumSafeReleaseLowerBound
    case FalseReleaseTooHigh =>
      m.falseReleaseRate.upper.Some? && m.falseReleaseRate.upper.value > p.maximumFalseReleaseUpperBound
    case UngradableFractionTooHigh => m.ungradable as real > p.maximumUngradableFraction * m.total as real
    case PipelineErrorFractionTooHigh =>
      m.pipelineErrors as real > p.maximumPipelineErrorFraction * m.total as real
    case _ => false
  }

  function Report(m: Metrics, p: Policy, reason: Reason): seq<Reason> {
    if Violated(m, p, reason) then [reason] else []
  }

  function Unobserved(m: Metrics, p: Policy): (r: seq<Reason>)
    ensures r == [] <==> Observed(m)
  {
    Report(m, p, InsufficientObservations(TaskSuccess))
    + Report(m, p, InsufficientObservations(SafeRelease))
    + Report(m, p, InsufficientObservations(FalseReleaseRate))
  }

  function BoundViolations(m: Metrics, p: Policy): seq<Reason> {
    Report(m, p, TaskSuccessTooLow) + Report(m, p, SafeReleaseTooLow) + Report(m, p, FalseReleaseTooHigh)
  }

  function Violations(m: Metrics, p: Policy): (r: seq<Reason>)
    ensures Observed(m) ==> (r == [] <==> Meets(m, p))
  {
    BoundViolations(m, p)
    + Report(m, p, UngradableFractionTooHigh) + Report(m, p, PipelineErrorFractionTooHigh)
  }

  /** The decision as a table over what is violated. */
  function Decided(m: Metrics, p: Policy): Decision {
    if m.gradable < p.minimumGradableCases then Decision(InsufficientEvidence, [TooFewGradableCases])
    else if !Observed(m) then Decision(InsufficientEvidence, Unobserved(m, p))
    else if m.total == 0 then Decision(InsufficientEvidence, [NoBenchmarkCases])
    else if Meets(m, p) then Decision(Qualified, [AllRequirementsSatisfied])
    else Decision(NotQualified, Violations(m, p))
  }

  // ----- Implementation -------------------------------------------------------

  /** `ReadinessEvaluator.evaluate`. The error for a bound that went missing between
      the two checks cannot be reached. */
  method Evaluate(m: Metrics, p: Policy) returns (decision: Decision)
    ensures decision == Decided(m, p)
  {
    var reasons: seq<Reason> := [];
    if m.gradable < p.minimumGradableCases {
      reasons := reasons + [TooFewGradableCases];
      return Decision(InsufficientEvidence, reasons);
    }
    reasons := MissingObservations(m, p);
    if reasons != [] {
      return Decision(InsufficientEvidence, reasons);
    }
    if m.taskSuccess.lower.value < p.minimumTaskSuccessLowerBound {
      reasons := reasons + [TaskSuccessTooLow];
    }
    if m.safeRelease.lower.value < p.minimumSafeReleaseLowerBound {
      reasons := reasons + [SafeReleaseTooLow];
    }
    if m.falseReleaseRate.upper.value > p.maximumFalseReleaseUpperBound {
      reasons := reasons + [FalseReleaseTooHigh];
    }
    assert reasons == BoundViolations(m, p);
    if m.total == 0 {
      return Decision(InsufficientEvidence, [NoBenchmarkCases]);
    }
    Fraction(m.ungradable, m.total, p.maximumUngradableFraction);
    Fraction(m.pipelineErrors, m.total, p.maximumPipelineErrorFraction);
    if m.ungradable as real / m.total as real > p.maximumUngradableFraction {
      reasons := reasons + [UngradableFractionTooHigh];
    }
    if m.pipelineErrors as real / m.total as real > p.maximumPipelineErrorFraction {
      reasons := reasons + [PipelineErrorFractionTooHigh];
    }
    assert reasons == Violations(m, p);
    if reasons != [] {
      return Decision(NotQualified, reasons);
    }
    return Decision(Qualified, [AllRequirementsSatisfied]);
  }

  /** The loop over the required estimates. */
  method MissingObservations(m: Metrics, p: Policy) returns (reasons: seq<Reason>)
    ensures reasons == Unobserved(m, p)
  {
    reasons := [];
    var names := [TaskSuccess, SafeRelease, FalseReleaseRate];
    for k := 0 to 3
      invariant k == 0 ==> reasons == []
      invariant k == 1 ==> reasons == Report(m, p, InsufficientObservations(TaskSuccess))
      invariant k == 2 ==> reasons == Report(m, p, InsufficientObservations(TaskSuccess))
                                   + Report(m, p, InsufficientObservations(SafeRelease))
      invariant k == 3 ==> reasons == Unobserved(m, p)
    {
      var estimate := EstimateOf(m, names[k]);
      if estimate.lower.None? || estimate.upper.None? {
        reasons := reasons + [InsufficientObservations(names[k])];
      }
    }
  }

  lemma Fraction(part: nat, total: nat, limit: real)
    requires total > 0
    ensures part as real / total as real > limit <==> part as real > limit * total as real
  {
    ScaleKeepsOrder(total as real, part as real / total as real, limit);
  }

  /** A platform qualifies exactly when it has enough cases and meets every requirement. */
  lemma QualifiedExactlyWhen(m: Metrics, p: Policy)
    ensures Decided(m, p).status == Qualified
       <==> m.gradable >= p.minimumGradableCases && m.total > 0 && Meets(m, p)
  {}

  lemma ReportOnce(reasons: seq<Reason>, m: Metrics, p: Policy, next: Reason)
    requires Distinct(reasons) && next !in reasons
    ensures Distinct(reasons + Report(m, p, next))
    ensures forall r :: r in reasons + Report(m, p, next) <==> r in reasons || (r == next && Violated(m, p, r))
  {
    if Violated(m, p, next) { DistinctThen(reasons, next); } else { assert reasons + [] == reasons; }
  }

  lemma ViolationsAreViolated(m: Metrics, p: Policy)
    ensures Distinct(Violations(m, p))
    ensures forall r :: r in Violations(m, p) <==> Violated(m, p, r) && !r.InsufficientObservations?
  {
    var first := Report(m, p, TaskSuccessTooLow);
    assert Distinct(first);
    ReportOnce(first, m, p, SafeReleaseTooLow);
    ReportOnce(first + Report(m, p, SafeReleaseTooLow), m, p, FalseReleaseTooHigh);
    ReportOnce(BoundViolations(m, p), m, p, UngradableFractionTooHigh);
    ReportOnce(BoundViolations(m, p) + Report(m, p, UngradableFractionTooHigh), m, p, PipelineErrorFractionTooHigh);
  }

  /** A refusal names exactly the requirements that fail, each once. */
  lemma ReasonsAreViolations(m: Metrics, p: Policy, r: Reason)
    requires Decided(m, p).status == NotQualified
    ensures !Meets(m, p) && Distinct(Decided(m, p).reasons)
    ensures r in Decided(m, p).reasons <==> Violated(m, p, r) && !r.InsufficientObservations?
  {
    ViolationsAreViolated(m, p);
  }

  // ----- What a decision means ------------------------------------------------

  /** Both bounds of the three required estimates are known. */
  predicate Known(m: Metrics) {
    && m.taskSuccess.lower.Some? && m.taskSuccess.upper.Some?
    && m.safeRelease.lower.Some? && m.safeRelease.upper.Some?
    && m.falseReleaseRate.lower.Some? && m.falseReleaseRate.upper.Some?
  }

  /** INSUFFICIENT_EVIDENCE with too few graded cases, none at all or an unknown bound;
      QUALIFIED with enough and every requirement met; NOT_QUALIFIED otherwise. */
  lemma StatusMeans(m: Metrics, p: Policy)
    ensures Decided(m, p).status == InsufficientEvidence <==>
      m.gradable < p.minimumGradableCases || !Known(m) || m.total == 0
    ensures Decided(m, p).status == Qualified <==>
      && m.gradable >= p.minimumGradableCases && Known(m) && m.total > 0
      && m.taskSuccess.lower.value >= p.minimumTaskSuccessLowerBound
      && m.safeRelease.lower.value >= p.minimumSafeReleaseLowerBound
      && m.falseReleaseRate.upper.value <= p.maximumFalseReleaseUpperBound
      && m.ungradable as real / m.total as real <= p.maximumUngradableFraction
      && m.pipelineErrors as real / m.total as real <= p.maximumPipelineErrorFraction
  {
    if m.total > 0 {
      Fraction(m.ungradable, m.total, p.maximumUngradableFraction);
      Fraction(m.pipelineErrors, m.total, p.maximumPipelineErrorFraction);
    }
  }

  /** When a reason applies. */
  predicate Applies(m: Metrics, p: Policy, r: Reason) {
    match r
    case TooFewGradableCases => m.gradable < p.minimumGradableCases
    case InsufficientObservations(name) =>
      && m.gradable >= p.minimumGradableCases
      && ((name == TaskSuccess && (m.taskSuccess.lower.None? || m.taskSuccess.upper.None?))
          || (name == SafeRelease && (m.safeRelease.lower.None? || m.safeRelease.upper.None?))
          || (name == FalseReleaseRate && (m.falseReleaseRate.lower.None? || m.falseReleaseRate.upper.None?)))
    case NoBenchmarkCases => m.gradable >= p.minimumGradableCases && Known(m) && m.total == 0
    case AllRequirementsSatisfied => Decided(m, p).status == Qualified
    case TaskSuccessTooLow => Judged(m, p) && m.taskSuccess.lower.value < p.minimumTaskSuccessLowerBound
    case SafeReleaseTooLow => Judged(m, p) && m.safeRelease.lower.value < p.minimumSafeReleaseLowerBound
    case FalseReleaseTooHigh => Judged(m, p) && m.falseReleaseRate.upper.value > p.maximumFalseReleaseUpperBound
    case UngradableFractionTooHigh =>
      Judged(m, p) && m.ungradable as real / m.total as real > p.maximumUngradableFraction
    case PipelineErrorFractionTooHigh =>
      Judged(m, p) && m.pipelineErrors as real / m.total as real > p.maximumPipelineErrorFraction
  }

  /** The reasons are exactly those that apply. */
  lemma ReasonsMean(m: Metrics, p: Policy, r: Reason)
    ensures r in Decided(m, p).reasons <==> Applies(m, p, r)
  {
    if Judged(m, p) { JudgedReasons(m, p, r); } else { EarlyReasons(m, p, r); }
  }

  lemma EarlyReasons(m: Metrics, p: Policy, r: Reason)
    requires !Judged(m, p)
    ensures r in Decided(m, p).reasons <==> Applies(m, p, r)
  {
    var unobserved := Unobserved(m, p);
    assert r in unobserved <==>
             || r in Report(m, p, InsufficientObservations(TaskSuccess))
             || r in Report(m, p, InsufficientObservations(SafeRelease))
             || r in Report(m, p, InsufficientObservations(FalseReleaseRate));
  }

  lemma JudgedReasons(m: Metrics, p: Policy, r: Reason)
    requires Judged(m, p)
    ensures r in Decided(m, p).reasons <==> Applies(m, p, r)
  {
    ViolationsAreViolated(m, p);
    if !r.AllRequirementsSatisfied? { ViolationsApply(m, p, r); }
    if Meets(m, p) {
      assert Violations(m, p) == [];
    }
  }

  lemma ViolationsApply(m: Metrics, p: Policy, r: Reason)
    requires Judged(m, p) && !r.AllRequirementsSatisfied?
    ensures Violated(m, p, r) && !r.InsufficientObservations? <==> Applies(m, p, r)
  {
    Fraction(m.ungradable, m.total, p.maximumUngradableFraction);
    Fraction(m.pipelineErrors, m.total, p.maximumPipelineErrorFraction);
  }

  /** There is enough to judge by. */
  predicate Judged(m: Metrics, p: Policy) {
    m.gradable >= p.minimumGradableCases && Known(m) && m.total > 0
  }

  /** A campaign, measured and judged. */
  function Judge(lib: Wilson.Library, results: seq<CaseResult>, confidence: real, p: Policy): Status
    requires 0.0 < confidence < 1.0
  {
    MetricsDescribeCampaign(lib, results, confidence);
    Decided(Calculate(lib, results, confidence).value, p).status
  }

  /** `b` is as large a campaign as `m` with bounds no less favourable. */
  predicate NoWorse(m: Metrics, b: Metrics) {
    && b.gradable == m.gradable && b.total == m.total
    && b.ungradable == m.ungradable && b.pipelineErrors == m.pipelineErrors
    && NotBelow(m.taskSuccess, b.taskSuccess)
    && NotBelow(m.safeRelease, b.safeRelease)
    && NotBelow(b.falseReleaseRate, m.falseReleaseRate)
  }

  predicate NotBelow(e: ProportionEstimate, f: ProportionEstimate) {
    && (Bounded(e) <==> Bounded(f))
    && (Bounded(e) ==> e.lower.value <= f.lower.value && e.upper.value <= f.upper.value)
  }

  lemma NoWorseStaysQualified(m: Metrics, b: Metrics, p: Policy)
    requires NoWorse(m, b) && Decided(m, p).status == Qualified
    ensures Decided(b, p).status == Qualified
  {
    QualifiedExactlyWhen(m, p);
    QualifiedExactlyWhen(b, p);
  }

  lemma NoWorseAddsNoReason(m: Metrics, b: Metrics, p: Policy)
    requires NoWorse(m, b) && Decided(b, p).status == NotQualified
    ensures Decided(m, p).status == NotQualified
    ensures forall r :: r in Decided(b, p).reasons ==> r in Decided(m, p).reasons
  {
    if Decided(m, p).status == Qualified { NoWorseStaysQualified(m, b, p); }
    forall r | r in Decided(b, p).reasons
      ensures r in Decided(m, p).reasons
    {
      ReasonsAreViolations(b, p, r);
      ReasonsAreViolations(m, p, r);
    }
  }

  lemma ImprovementIsNoWorse(
    lib: Wilson.Library, results: seq<CaseResult>, better: seq<CaseResult>, confidence: real, m: Metrics, b: Metrics)
    requires Wilson.Lawful(lib) && 0.0 < confidence < 1.0 && Improves(results, better)
    requires Describes(lib, results, confidence, m) && Describes(lib, better, confidence, b)
    ensures NoWorse(m, b)
  {
    ImprovedCounts(results, better);
    var trials := Count(results, ReleasedGradable);
    BoundsFollowSuccesses(lib, m.correct, b.correct, m.gradable, confidence);
    BoundsFollowSuccesses(lib, Count(results, SafelyReleased), Count(better, SafelyReleased), trials, confidence);
    BoundsFollowSuccesses(lib, b.falseReleases, m.falseReleases, trials, confidence);
  }

  /** Turning incorrect candidates into correct ones never costs a qualification. */
  lemma ImprovementKeepsQualification(
    lib: Wilson.Library, results: seq<CaseResult>, better: seq<CaseResult>, confidence: real, p: Policy)
    requires Wilson.Lawful(lib) && 0.0 < confidence < 1.0
    requires Improves(results, better)
    ensures Judge(lib, results, confidence, p) == Qualified ==> Judge(lib, better, confidence, p) == Qualified
  {
    MetricsDescribeCampaign(lib, results, confidence);
    MetricsDescribeCampaign(lib, better, confidence);
    var m, b := Calculate(lib, results, confidence).value, Calculate(lib, better, confidence).value;
    ImprovementIsNoWorse(lib, results, better, confidence, m, b);
    if Judge(lib, results, confidence, p) == Qualified { NoWorseStaysQualified(m, b, p); }
  }

  /** Nor does it bring a new reason for a refusal. */
  lemma ImprovementAddsNoReason(
    lib: Wilson.Library, results: seq<CaseResult>, better: seq<CaseResult>, confidence: real, p: Policy,
    m: Metrics, b: Metrics)
    requires Wilson.Lawful(lib) && 0.0 < confidence < 1.0 && Improves(results, better)
    requires Calculate(lib, results, confidence) == Some(m) && Calculate(lib, better, confidence) == Some(b)
    requires Decided(b, p).status == NotQualified
    ensures Decided(m, p).status == NotQualified
    ensures forall r :: r in Decided(b, p).reasons ==> r in Decided(m, p).reasons
  {
    MetricsDescribeCampaign(lib, results, confidence);
    MetricsDescribeCampaign(lib, better, confidence);
    ImprovementIsNoWorse(lib, results, better, confidence, m, b);
    NoWorseAddsNoReason(m, b, p);
  }

  lemma BoundsFollowSuccesses(lib: Wilson.Library, fewer: nat, more: nat, trials: nat, confidence: real)
    requires Wilson.Lawful(lib) && 0.0 < confidence < 1.0 && fewer <= more <= trials
    ensures Proportion(lib, fewer, trials, confidence).Some? && Proportion(lib, more, trials, confidence).Some?
    ensures
      NotBelow(Proportion(lib, fewer, trials, confidence).value, Proportion(lib, more, trials, confidence).value)
  {
    if trials > 0 && fewer < more {
      Wilson.QuantileGrows(lib, confidence, confidence);
      Wilson.BoundsIncrease(lib, fewer, more, trials, Wilson.Quantile(lib, confidence));
    }
  }

  /** Because the two bounds mirror each other, the two release requirements are one
      requirement on the safe-release bound. */
  lemma ReleaseRequirementsAreOne(
    lib: Wilson.Library, results: seq<CaseResult>, confidence: real, p: Policy, m: Metrics)
    requires 0.0 < confidence < 1.0 && Calculate(lib, results, confidence) == Some(m) && Observed(m)
    ensures !Violated(m, p, SafeReleaseTooLow) && !Violated(m, p, FalseReleaseTooHigh)
       <==> m.safeRelease.lower.value
              >= Max(p.minimumSafeReleaseLowerBound, 1.0 - p.maximumFalseReleaseUpperBound)
  {
    FalseReleaseMirrorsSafeRelease(lib, results, confidence, m);
  }
}
