/** The campaign counters and the four proportions built from them. */
module CampaignMetrics {
  import opened Prelude
  import Wilson

  datatype GateOutcome = Pass | Fail | HumanReviewRequired | MoreEvidenceRequired | PipelineError

  datatype OracleOutcome = Correct | Incorrect | Ungradable

  datatype CaseResult = CaseResult(
    caseId: string, taskType: string, difficulty: string,
    gateOutcome: GateOutcome, oracleOutcome: OracleOutcome,
    runId: Option<string>, manifestSha256: Option<string>, failureCategory: Option<string>)

  datatype ProportionEstimate = ProportionEstimate(
    successes: nat, trials: nat, estimate: Option<real>, lower: Option<real>, upper: Option<real>)

  datatype Metrics = Metrics(
    total: nat, gradable: nat, correct: nat, incorrect: nat, ungradable: nat,
    released: nat, rejected: nat, review: nat, moreEvidence: nat, pipelineErrors: nat,
    falseReleases: nat, falseRejections: nat,
    taskSuccess: ProportionEstimate, safeRelease: ProportionEstimate,
    falseReleaseRate: ProportionEstimate, falseRejectionRate: ProportionEstimate)

  predicate Gradable(r: CaseResult) { !r.oracleOutcome.Ungradable? }
  predicate IsCorrect(r: CaseResult) { r.oracleOutcome.Correct? }
  predicate IsIncorrect(r: CaseResult) { r.oracleOutcome.Incorrect? }
  predicate Released(r: CaseResult) { r.gateOutcome.Pass? }
  predicate Rejected(r: CaseResult) { r.gateOutcome.Fail? }
  predicate Reviewed(r: CaseResult) { r.gateOutcome.HumanReviewRequired? }
  predicate NeedsEvidence(r: CaseResult) { r.gateOutcome.MoreEvidenceRequired? }
  predicate Errored(r: CaseResult) { r.gateOutcome.PipelineError? }
  predicate FalselyReleased(r: CaseResult) { Released(r) && IsIncorrect(r) }
  predicate FalselyRejected(r: CaseResult) { Rejected(r) && IsCorrect(r) }

  function Proportion(lib: Wilson.Library, successes: int, trials: int, confidence: real)
    : (r: Option<ProportionEstimate>)
  {
    match Wilson.Proportion(lib, successes, trials, confidence)
    case None => None
    case Some(NoObservations) => Some(ProportionEstimate(0, 0, None, None, None))
    case Some(Observed(i)) =>
      Some(ProportionEstimate(successes, trials, Some(i.estimate), Some(i.lower), Some(i.upper)))
  }

  /** `CampaignMetricsCalculator.calculate`; `None` when a proportion is refused. */
  function Calculate(lib: Wilson.Library, results: seq<CaseResult>, confidence: real): Option<Metrics> {
    var gradable := Filter(results, Gradable);
    var correct := Filter(gradable, IsCorrect);
    var incorrect := Filter(gradable, IsIncorrect);
    var released := Filter(results, Released);
    var falseReleases := Filter(gradable, FalselyReleased);
    var falseRejections := Filter(gradable, FalselyRejected);
    var releasedGradable := Filter(released, Gradable);
    var safeReleases := Filter(releasedGradable, IsCorrect);
    var taskSuccess := Proportion(lib, |correct|, |gradable|, confidence);
    var safeRelease := Proportion(lib, |safeReleases|, |releasedGradable|, confidence);
    var falseReleaseRate := Proportion(lib, |falseReleases|, |releasedGradable|, confidence);
    var falseRejectionRate := Proportion(lib, |falseRejections|, |correct|, confidence);
    if taskSuccess.None? || safeRelease.None? || falseReleaseRate.None? || falseRejectionRate.None? then None
    else
      Some(Metrics(
        |results|, |gradable|, |correct|, |incorrect|, |results| - |gradable|,
        |released|, |Filter(results, Rejected)|, |Filter(results, Reviewed)|,
        |Filter(results, NeedsEvidence)|, |Filter(results, Errored)|,
        |falseReleases|, |falseRejections|,
        taskSuccess.value, safeRelease.value, falseReleaseRate.value, falseRejectionRate.value))
  }

  // ----- Counting -------------------------------------------------------------

  function Count<T(!new)>(xs: seq<T>, p: T -> bool): nat {
    |Filter(xs, p)|
  }

  /** Nested selections are one selection. */
  lemma {:induction false} FilterTwice<T(!new)>(xs: seq<T>, p: T -> bool, q: T -> bool, both: T -> bool)
    requires forall x :: x in xs ==> (both(x) <==> p(x) && q(x))
    ensures Filter(Filter(xs, p), q) == Filter(xs, both)
  {
    if xs != [] {
      FilterTwice(xs[1..], p, q, both);
      var rest := Filter(xs[1..], p);
      assert ([xs[0]] + rest)[1..] == rest;
      assert [] + rest == rest;
    }
  }

  /** A selection splits over two disjoint parts. */
  lemma {:induction false} CountSplits<T(!new)>(xs: seq<T>, whole: T -> bool, left: T -> bool, right: T -> bool)
    requires forall x :: x in xs ==> (whole(x) <==> left(x) || right(x)) && !(left(x) && right(x))
    ensures Count(xs, whole) == Count(xs, left) + Count(xs, right)
  {
    if xs != [] { CountSplits(xs[1..], whole, left, right); }
  }

  lemma {:induction false} CountAll<T(!new)>(xs: seq<T>, p: T -> bool)
    requires forall x :: x in xs ==> p(x)
    ensures Count(xs, p) == |xs|
  {
    if xs != [] { CountAll(xs[1..], p); }
  }

  predicate SafelyReleased(r: CaseResult) { Released(r) && IsCorrect(r) }
  predicate ReleasedGradable(r: CaseResult) { Released(r) && Gradable(r) }

  /** The counters `calculate` builds by nested selection, as single selections. */
  lemma Selections(results: seq<CaseResult>)
    ensures |Filter(Filter(results, Gradable), IsCorrect)| == Count(results, IsCorrect)
    ensures |Filter(Filter(results, Gradable), IsIncorrect)| == Count(results, IsIncorrect)
    ensures |Filter(Filter(results, Gradable), FalselyReleased)| == Count(results, FalselyReleased)
    ensures |Filter(Filter(results, Gradable), FalselyRejected)| == Count(results, FalselyRejected)
    ensures |Filter(Filter(results, Released), Gradable)| == Count(results, ReleasedGradable)
    ensures |Filter(Filter(Filter(results, Released), Gradable), IsCorrect)| == Count(results, SafelyReleased)
  {
    FilterTwice(results, Gradable, IsCorrect, IsCorrect);
    FilterTwice(results, Gradable, IsIncorrect, IsIncorrect);
    FilterTwice(results, Gradable, FalselyReleased, FalselyReleased);
    FilterTwice(results, Gradable, FalselyRejected, FalselyRejected);
    FilterTwice(results, Released, Gradable, ReleasedGradable);
    FilterTwice(results, ReleasedGradable, IsCorrect, SafelyReleased);
  }

  predicate Always(r: CaseResult) { true }
  predicate Undecided(r: CaseResult) { Reviewed(r) || NeedsEvidence(r) }
  predicate Unreleased(r: CaseResult) { !Released(r) }
  predicate Unresolved(r: CaseResult) { Undecided(r) || Errored(r) }

  /** Oracle outcomes partition the campaign, gate outcomes partition it, and safe
      and false releases partition the graded releases. */
  lemma Partitions(results: seq<CaseResult>)
    ensures Count(results, Gradable) == Count(results, IsCorrect) + Count(results, IsIncorrect)
    ensures |results| == Count(results, Released) + Count(results, Rejected) + Count(results, Reviewed)
                         + Count(results, NeedsEvidence) + Count(results, Errored)
    ensures Count(results, ReleasedGradable) == Count(results, SafelyReleased) + Count(results, FalselyReleased)
    ensures Count(results, FalselyRejected) <= Count(results, IsCorrect)
  {
    CountSplits(results, Gradable, IsCorrect, IsIncorrect);
    CountAll(results, Always);
    CountSplits(results, Always, Released, Unreleased);
    CountSplits(results, Unreleased, Rejected, Unresolved);
    CountSplits(results, Unresolved, Undecided, Errored);
    CountSplits(results, Undecided, Reviewed, NeedsEvidence);
    CountSplits(results, ReleasedGradable, SafelyReleased, FalselyReleased);
    CountSplits(results, IsCorrect, FalselyRejected, r => IsCorrect(r) && !Rejected(r));
  }

  /** What the metrics say about a campaign. */
  ghost predicate Describes(lib: Wilson.Library, results: seq<CaseResult>, confidence: real, m: Metrics) {
    && m.total == |results| == m.gradable + m.ungradable
    && m.gradable == m.correct + m.incorrect
    && m.total == m.released + m.rejected + m.review + m.moreEvidence + m.pipelineErrors
    && m.correct == Count(results, IsCorrect) && m.incorrect == Count(results, IsIncorrect)
    && m.gradable == Count(results, Gradable)
    && m.released == Count(results, Released) && m.pipelineErrors == Count(results, Errored)
    && m.rejected == Count(results, Rejected) && m.review == Count(results, Reviewed)
    && m.moreEvidence == Count(results, NeedsEvidence)
    && m.falseReleases == Count(results, FalselyReleased)
    && m.falseRejections == Count(results, FalselyRejected)
    && Proportion(lib, m.correct, m.gradable, confidence) == Some(m.taskSuccess)
    && Proportion(lib, Count(results, SafelyReleased), Count(results, ReleasedGradable), confidence)
       == Some(m.safeRelease)
    && Proportion(lib, m.falseReleases, Count(results, ReleasedGradable), confidence)
       == Some(m.falseReleaseRate)
    && Proportion(lib, m.falseRejections, m.correct, confidence) == Some(m.falseRejectionRate)
    && Count(results, ReleasedGradable) == Count(results, SafelyReleased) + m.falseReleases
  }

  /** The calculation succeeds for every campaign and every legal confidence level. */
  lemma MetricsDescribeCampaign(lib: Wilson.Library, results: seq<CaseResult>, confidence: real)
    ensures Calculate(lib, results, confidence).Some? <==> 0.0 < confidence < 1.0
    ensures 0.0 < confidence < 1.0 ==>
              Describes(lib, results, confidence, Calculate(lib, results, confidence).value)
  {
    Selections(results);
    Partitions(results);
  }

  // ----- What the counters count ------------------------------------------------

  /** The positions of the results that satisfy `p`. */
  ghost function Positions<T(!new)>(xs: seq<T>, p: T -> bool): set<nat> {
    set i: nat | i < |xs| && p(xs[i])
  }

  lemma {:induction false} CountIsCardinality<T(!new)>(xs: seq<T>, p: T -> bool)
    ensures Count(xs, p) == |Positions(xs, p)|
    decreases |xs|
  {
    if xs != [] {
      var n := |xs| - 1;
      CountIsCardinality(xs[..n], p);
      CountThen(xs[..n], xs[n], p);
      assert xs == xs[..n] + [xs[n]];
      assert Positions(xs, p) == Positions(xs[..n], p) + if p(xs[n]) then {n} else {};
    }
  }

  lemma {:induction false} CountThen<T(!new)>(xs: seq<T>, x: T, p: T -> bool)
    ensures Count(xs + [x], p) == Count(xs, p) + if p(x) then 1 else 0
  {
    if xs != [] {
      CountThen(xs[1..], x, p);
      assert (xs + [x])[1..] == xs[1..] + [x];
    }
  }

  /** The counters, by position in the campaign. */
  lemma CountersMean(lib: Wilson.Library, results: seq<CaseResult>, confidence: real, m: Metrics)
    requires Calculate(lib, results, confidence) == Some(m)
    ensures m.total == |results|
    ensures m.correct == |Positions(results, (r: CaseResult) => r.oracleOutcome == Correct)|
    ensures m.incorrect == |Positions(results, (r: CaseResult) => r.oracleOutcome == Incorrect)|
    ensures m.ungradable == |Positions(results, (r: CaseResult) => r.oracleOutcome == Ungradable)|
    ensures m.gradable == m.correct + m.incorrect
    ensures m.released == |Positions(results, (r: CaseResult) => r.gateOutcome == Pass)|
    ensures m.rejected == |Positions(results, (r: CaseResult) => r.gateOutcome == Fail)|
    ensures m.review == |Positions(results, (r: CaseResult) => r.gateOutcome == HumanReviewRequired)|
    ensures m.moreEvidence == |Positions(results, (r: CaseResult) => r.gateOutcome == MoreEvidenceRequired)|
    ensures m.pipelineErrors == |Positions(results, (r: CaseResult) => r.gateOutcome == PipelineError)|
    ensures m.falseReleases
         == |Positions(results, (r: CaseResult) => r.gateOutcome == Pass && r.oracleOutcome == Incorrect)|
    ensures m.falseRejections
         == |Positions(results, (r: CaseResult) => r.gateOutcome == Fail && r.oracleOutcome == Correct)|
  {
    MetricsDescribeCampaign(lib, results, confidence);
    Counted(results, IsCorrect, (r: CaseResult) => r.oracleOutcome == Correct);
    Counted(results, IsIncorrect, (r: CaseResult) => r.oracleOutcome == Incorrect);
    Counted(results, Released, (r: CaseResult) => r.gateOutcome == Pass);
    Counted(results, Rejected, (r: CaseResult) => r.gateOutcome == Fail);
    Counted(results, Reviewed, (r: CaseResult) => r.gateOutcome == HumanReviewRequired);
    Counted(results, NeedsEvidence, (r: CaseResult) => r.gateOutcome == MoreEvidenceRequired);
    Counted(results, Errored, (r: CaseResult) => r.gateOutcome == PipelineError);
    Counted(results, FalselyReleased, (r: CaseResult) => r.gateOutcome == Pass && r.oracleOutcome == Incorrect);
    Counted(results, FalselyRejected, (r: CaseResult) => r.gateOutcome == Fail && r.oracleOutcome == Correct);
    CountAll(results, Always);
    CountSplits(results, Always, Gradable, (r: CaseResult) => r.oracleOutcome == Ungradable);
    CountIsCardinality(results, (r: CaseResult) => r.oracleOutcome == Ungradable);
  }

  lemma Counted<T(!new)>(xs: seq<T>, p: T -> bool, q: T -> bool)
    requires forall x :: p(x) <==> q(x)
    ensures Count(xs, p) == |Positions(xs, q)|
  {
    CountIsCardinality(xs, p);
    assert Positions(xs, p) == Positions(xs, q);
  }

  /** The four rates: of what, out of what. A rate out of nothing has no estimate. */
  lemma RatesMean(lib: Wilson.Library, results: seq<CaseResult>, confidence: real, m: Metrics)
    requires Wilson.Lawful(lib) && Calculate(lib, results, confidence) == Some(m)
    ensures IsRate(lib, confidence, m.taskSuccess, m.correct, m.gradable)
    ensures IsRate(lib, confidence, m.safeRelease,
                   |Positions(results, (r: CaseResult) => r.gateOutcome == Pass && r.oracleOutcome == Correct)|,
                   |Positions(results, (r: CaseResult) => r.gateOutcome == Pass && r.oracleOutcome != Ungradable)|)
    ensures IsRate(lib, confidence, m.falseReleaseRate, m.falseReleases,
                   |Positions(results, (r: CaseResult) => r.gateOutcome == Pass && r.oracleOutcome != Ungradable)|)
    ensures IsRate(lib, confidence, m.falseRejectionRate, m.falseRejections, m.correct)
  {
    MetricsDescribeCampaign(lib, results, confidence);
    Counted(results, SafelyReleased, (r: CaseResult) => r.gateOutcome == Pass && r.oracleOutcome == Correct);
    Counted(results, ReleasedGradable, (r: CaseResult) => r.gateOutcome == Pass && r.oracleOutcome != Ungradable);
    ProportionIsRate(lib, m.correct, m.gradable, confidence);
    ProportionIsRate(lib, Count(results, SafelyReleased), Count(results, ReleasedGradable), confidence);
    ProportionIsRate(lib, m.falseReleases, Count(results, ReleasedGradable), confidence);
    ProportionIsRate(lib, m.falseRejections, m.correct, confidence);
  }

  /** The estimate is the share of successes, its bounds enclose exactly the shares that the
      score test does not reject. */
  ghost predicate IsRate(
    lib: Wilson.Library, confidence: real, e: ProportionEstimate, successes: nat, trials: nat)
  {
    if trials == 0 then e == ProportionEstimate(0, 0, None, None, None)
    else
      && e.successes == successes && e.trials == trials && e.estimate == Some(successes as real / trials as real)
      && e.lower.Some? && e.upper.Some?
      && var n, p, z := trials as real, successes as real / trials as real, lib.inverseCdf(1.0 - (1.0 - confidence) / 2.0);
         forall x: real :: e.lower.value <= x <= e.upper.value <==> Wilson.Accepts(p, n, z, x)
  }

  lemma ProportionIsRate(lib: Wilson.Library, successes: nat, trials: nat, confidence: real)
    requires Wilson.Lawful(lib) && Proportion(lib, successes, trials, confidence).Some?
    ensures IsRate(lib, confidence, Proportion(lib, successes, trials, confidence).value, successes, trials)
  {
    Wilson.EntryPointMeans(lib, successes, trials, confidence);
  }

  /** False-release and safe-release bounds mirror each other. */
  lemma FalseReleaseMirrorsSafeRelease(lib: Wilson.Library, results: seq<CaseResult>, confidence: real, m: Metrics)
    requires 0.0 < confidence < 1.0
    requires Calculate(lib, results, confidence) == Some(m)
    ensures m.safeRelease.trials == m.falseReleaseRate.trials == Count(results, ReleasedGradable)
    ensures m.safeRelease.trials == 0 <==> m.safeRelease.lower.None?
    ensures m.safeRelease.lower.None? <==> m.falseReleaseRate.upper.None?
    ensures m.safeRelease.trials > 0 ==>
              && m.falseReleaseRate.upper == Some(1.0 - m.safeRelease.lower.value)
              && m.falseReleaseRate.lower == Some(1.0 - m.safeRelease.upper.value)
  {
    MetricsDescribeCampaign(lib, results, confidence);
    var trials, safe := Count(results, ReleasedGradable), Count(results, SafelyReleased);
    if trials > 0 {
      Wilson.Complement(lib, safe, trials, Wilson.Quantile(lib, confidence));
    }
  }

  // ----- Improving a campaign -------------------------------------------------

  /** `better` is `results` with some incorrect candidates turned correct. */
  predicate Improves(results: seq<CaseResult>, better: seq<CaseResult>) {
    && |better| == |results|
    && forall i :: 0 <= i < |results| ==>
         || better[i] == results[i]
         || (results[i].oracleOutcome.Incorrect? && better[i] == results[i].(oracleOutcome := Correct))
  }

  lemma {:induction false} ImprovedCounts(results: seq<CaseResult>, better: seq<CaseResult>)
    requires Improves(results, better)
    ensures Count(better, Gradable) == Count(results, Gradable)
    ensures Count(better, Errored) == Count(results, Errored)
    ensures Count(better, ReleasedGradable) == Count(results, ReleasedGradable)
    ensures Count(better, IsCorrect) >= Count(results, IsCorrect)
    ensures Count(better, SafelyReleased) >= Count(results, SafelyReleased)
  {
    if results != [] {
      assert Improves(results[1..], better[1..]);
      ImprovedCounts(results[1..], better[1..]);
    }
  }
}
