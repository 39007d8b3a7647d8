/** The deterministic release policy: controls and thresholds folded into one decision. */
module GatePolicy {
  import opened Prelude
  import opened GateModel
  import Text

  datatype Operator = GreaterThan | GreaterThanOrEqual | LessThan | LessThanOrEqual | Equal | NotEqual

  datatype MissingAction = FailWhenMissing | ReviewWhenMissing | MoreEvidenceWhenMissing

  datatype Threshold = Threshold(
    id: string, metric: string, operator: Operator, expected: real,
    failureDecision: Decision, missing: MissingAction, description: string)

  datatype Policy = Policy(
    failOnMandatory: bool, failOnDominant: bool, reviewOnAdvisory: bool, reviewOnWarning: bool,
    moreEvidenceOnSkipped: bool, thresholds: seq<Threshold>)

  /** `MetricThreshold.validate_decisions`: a failed threshold cannot produce PASS. */
  predicate ValidPolicy(p: Policy) {
    forall t :: t in p.thresholds ==> !t.failureDecision.Pass?
  }

  /** What a message in the decision is about. */
  datatype Cause =
    | DominantFailed(id: string)
    | MandatoryFailed(id: string)
    | AdvisoryFailed(id: string)
    | Warned(id: string)
    | NotConclusive(id: string)
    | MetricUnavailable(metric: string, thresholdId: string)
    | ThresholdFailed(threshold: Threshold, actual: real)

  datatype Finding = Finding(decision: Decision, cause: Cause)

  datatype Reason = EverythingPassed | Because(cause: Cause)

  datatype Contradiction = Contradiction(id: string, reason: string)

  datatype PolicyDecision = PolicyDecision(
    decision: Decision, reasons: seq<Reason>, unmet: seq<Cause>, contradictions: seq<Contradiction>)

  datatype PolicyError = MetricNotFinite(metric: string)

  function Rank(d: Decision): nat {
    match d
    case Pass => 0
    case MoreEvidenceRequired => 1
    case HumanReviewRequired => 2
    case Fail => 3
  }

  function Abs(x: real): real { if x < 0.0 then -x else x }

  /** `math.isclose` with both tolerances at 1e-12. */
  predicate IsClose(a: real, b: real) {
    Abs(a - b) <= Max(0.000000000001 * Max(Abs(a), Abs(b)), 0.000000000001)
  }

  predicate Compare(actual: real, operator: Operator, expected: real) {
    match operator
    case GreaterThan => actual > expected
    case GreaterThanOrEqual => actual >= expected
    case LessThan => actual < expected
    case LessThanOrEqual => actual <= expected
    case Equal => IsClose(actual, expected)
    case NotEqual => !IsClose(actual, expected)
  }

  function WhenMissing(action: MissingAction): Decision {
    match action
    case FailWhenMissing => Fail
    case ReviewWhenMissing => HumanReviewRequired
    case MoreEvidenceWhenMissing => MoreEvidenceRequired
  }

  // ----- Specification: what each control and threshold contributes -----------

  /** The one finding a control can give rise to. */
  function ControlFinding(c: Control, p: Policy): Option<Finding> {
    match c.status
    case Passed => None
    case Warning => if p.reviewOnWarning then Some(Finding(HumanReviewRequired, Warned(c.id))) else None
    case Skipped => SkippedFinding(c, p)
    case NotApplicable => SkippedFinding(c, p)
    case Failed => FailedFinding(c, p)
    case Error => FailedFinding(c, p)
  }

  function SkippedFinding(c: Control, p: Policy): Option<Finding> {
    if p.moreEvidenceOnSkipped && (c.severity.Mandatory? || c.severity.DominantFailure?)
    then Some(Finding(MoreEvidenceRequired, NotConclusive(c.id))) else None
  }

  function FailedFinding(c: Control, p: Policy): Option<Finding> {
    match c.severity
    case DominantFailure => if p.failOnDominant then Some(Finding(Fail, DominantFailed(c.id))) else None
    case Mandatory => if p.failOnMandatory then Some(Finding(Fail, MandatoryFailed(c.id))) else None
    case Advisory => if p.reviewOnAdvisory then Some(Finding(HumanReviewRequired, AdvisoryFailed(c.id))) else None
    case Informational => None
  }

  function ThresholdFinding(t: Threshold, metrics: map<string, Number>): Option<Finding> {
    if t.metric !in metrics then Some(Finding(WhenMissing(t.missing), MetricUnavailable(t.metric, t.id)))
    else if metrics[t.metric].NotFinite? || Compare(metrics[t.metric].value, t.operator, t.expected) then None
    else Some(Finding(t.failureDecision, ThresholdFailed(t, metrics[t.metric].value)))
  }

  /** An obligation is an inconclusive control, an unavailable metric or a threshold
      whose failure asks for more evidence. */
  predicate Obliges(f: Finding) {
    f.cause.NotConclusive? || f.cause.MetricUnavailable?
    || (f.cause.ThresholdFailed? && f.decision.MoreEvidenceRequired?)
  }

  predicate SpeaksOfContradiction(reason: Remark) { Text.Contains(reason.folded, "contradict") }

  function Contradictory(c: Control, reasons: seq<Remark>): seq<Contradiction> {
    if reasons == [] then []
    else
      var last := reasons[|reasons| - 1];
      Contradictory(c, reasons[..|reasons| - 1])
      + (if SpeaksOfContradiction(last) then [Contradiction(c.id, last.text)] else [])
  }

  /** Contradictions are taken from errored controls the policy did not already fail. */
  function ControlContradictions(c: Control, p: Policy): seq<Contradiction> {
    var finding := ControlFinding(c, p);
    if c.status.Error? && !(finding.Some? && finding.value.decision.Fail?) then Contradictory(c, c.reasons) else []
  }

  // ----- Specification: the whole decision -------------------------------------

  function Listed(f: Option<Finding>): seq<Finding> {
    if f.Some? then [f.value] else []
  }

  function FromControls(controls: seq<Control>, p: Policy): seq<Finding> {
    if controls == [] then []
    else FromControls(controls[..|controls| - 1], p) + Listed(ControlFinding(controls[|controls| - 1], p))
  }

  function FromThresholds(thresholds: seq<Threshold>, metrics: map<string, Number>): seq<Finding> {
    if thresholds == [] then []
    else
      FromThresholds(thresholds[..|thresholds| - 1], metrics)
      + Listed(ThresholdFinding(thresholds[|thresholds| - 1], metrics))
  }

  function AllContradictions(controls: seq<Control>, p: Policy): seq<Contradiction> {
    if controls == [] then []
    else
      AllContradictions(controls[..|controls| - 1], p)
      + ControlContradictions(controls[|controls| - 1], p)
  }

  function Findings(controls: seq<Control>, metrics: map<string, Number>, p: Policy): seq<Finding> {
    FromControls(controls, p) + FromThresholds(p.thresholds, metrics)
  }

  /** The causes of the findings that satisfy `keep`, in order. */
  function Causes(findings: seq<Finding>, keep: Finding -> bool): seq<Cause> {
    if findings == [] then []
    else
      var last := findings[|findings| - 1];
      Causes(findings[..|findings| - 1], keep) + (if keep(last) then [last.cause] else [])
  }

  function Highest(findings: seq<Finding>): Decision {
    if findings == [] then Pass
    else
      var front := Highest(findings[..|findings| - 1]);
      var last := findings[|findings| - 1].decision;
      if Rank(last) > Rank(front) then last else front
  }

  function Explain(causes: seq<Cause>): seq<Reason> {
    seq(|causes|, i requires 0 <= i < |causes| => Because(causes[i]))
  }

  /** The decision the gate documents: the highest-precedence finding, explained by
      exactly the findings of that precedence. */
  function Decided(controls: seq<Control>, metrics: map<string, Number>, p: Policy): PolicyDecision {
    var findings := Findings(controls, metrics, p);
    var decision := Highest(findings);
    if findings == [] then PolicyDecision(Pass, [EverythingPassed], [], [])
    else
      PolicyDecision(decision,
                     Explain(Causes(findings, (f: Finding) => f.decision == decision)),
                     Dedup(Causes(findings, Obliges)),
                     Dedup(AllContradictions(controls, p)))
  }

  /** A metric some threshold reads is an infinity or not a number. */
  predicate Unusable(t: Threshold, metrics: map<string, Number>) {
    t.metric in metrics && metrics[t.metric].NotFinite?
  }

  predicate AllUsable(thresholds: seq<Threshold>, metrics: map<string, Number>) {
    forall i :: 0 <= i < |thresholds| ==> !Unusable(thresholds[i], metrics)
  }

  /** The error names the metric of the first threshold that reads such a value. */
  predicate FirstUnusable(thresholds: seq<Threshold>, metrics: map<string, Number>, e: PolicyError) {
    exists i :: 0 <= i < |thresholds|
      && Unusable(thresholds[i], metrics) && AllUsable(thresholds[..i], metrics)
      && e == MetricNotFinite(thresholds[i].metric)
  }

  // ----- Appending one item ------------------------------------------------------

  lemma ControlsThen(controls: seq<Control>, c: Control, p: Policy)
    ensures FromControls(controls + [c], p) == FromControls(controls, p) + Listed(ControlFinding(c, p))
    ensures AllContradictions(controls + [c], p) == AllContradictions(controls, p) + ControlContradictions(c, p)
  {
    assert (controls + [c])[..|controls|] == controls;
  }

  lemma ThresholdsThen(thresholds: seq<Threshold>, t: Threshold, metrics: map<string, Number>)
    ensures FromThresholds(thresholds + [t], metrics)
         == FromThresholds(thresholds, metrics) + Listed(ThresholdFinding(t, metrics))
  {
    assert (thresholds + [t])[..|thresholds|] == thresholds;
  }

  lemma NextThreshold(thresholds: seq<Threshold>, i: nat, metrics: map<string, Number>)
    requires i < |thresholds|
    ensures FromThresholds(thresholds[..i + 1], metrics)
         == FromThresholds(thresholds[..i], metrics) + Listed(ThresholdFinding(thresholds[i], metrics))
    ensures AllUsable(thresholds[..i + 1], metrics)
       <==> AllUsable(thresholds[..i], metrics) && !Unusable(thresholds[i], metrics)
    ensures Unusable(thresholds[i], metrics) ==> !AllUsable(thresholds, metrics)
  {
    ThresholdsThen(thresholds[..i], thresholds[i], metrics);
    assert thresholds[..i + 1] == thresholds[..i] + [thresholds[i]];
  }

  lemma CausesThen(findings: seq<Finding>, f: Finding, keep: Finding -> bool)
    ensures Causes(findings + [f], keep) == Causes(findings, keep) + (if keep(f) then [f.cause] else [])
    ensures Highest(findings + [f])
         == if Rank(f.decision) > Rank(Highest(findings)) then f.decision else Highest(findings)
  {
    assert (findings + [f])[..|findings|] == findings;
  }

  lemma ContradictoryThen(c: Control, reasons: seq<Remark>, r: Remark)
    ensures Contradictory(c, reasons + [r])
         == Contradictory(c, reasons)
            + (if SpeaksOfContradiction(r) then [Contradiction(c.id, r.text)] else [])
  {
    assert (reasons + [r])[..|reasons|] == reasons;
  }

  // ----- Implementation ------------------------------------------------------------

  /** The three lists `decide` fills: candidate decisions, obligations, contradictions. */
  datatype Ledger = Ledger(candidates: seq<Finding>, unmet: seq<Cause>, contradictions: seq<Contradiction>)

  /** The obligations are those of the candidate decisions. */
  predicate Coherent(ledger: Ledger) {
    ledger.unmet == Causes(ledger.candidates, Obliges)
  }

  predicate Extended(before: Ledger, after: Ledger, added: seq<Finding>) {
    after.candidates == before.candidates + added && after.contradictions == before.contradictions
  }

  lemma ExtendedTwice(a: Ledger, b: Ledger, c: Ledger, first: seq<Finding>, second: seq<Finding>)
    requires Extended(a, b, first) && Extended(b, c, second)
    ensures Extended(a, c, first + second)
  {
    assert (a.candidates + first) + second == a.candidates + (first + second);
  }

  /** What one control appends. */
  method ConsiderControl(c: Control, p: Policy, ledger: Ledger) returns (r: Ledger)
    requires Coherent(ledger)
    ensures r.candidates == ledger.candidates + Listed(ControlFinding(c, p))
    ensures Coherent(r)
    ensures r.contradictions == ledger.contradictions + ControlContradictions(c, p)
  {
    r := ledger;
    var failed := c.status.Failed? || c.status.Error?;
    var incomplete := c.status.Skipped? || c.status.NotApplicable?;
    if failed && c.severity.DominantFailure? && p.failOnDominant {
      r := Append(r, Finding(Fail, DominantFailed(c.id)));
      return;
    }
    if failed && c.severity.Mandatory? && p.failOnMandatory {
      r := Append(r, Finding(Fail, MandatoryFailed(c.id)));
      return;
    }
    if failed && c.severity.Advisory? && p.reviewOnAdvisory {
      r := Append(r, Finding(HumanReviewRequired, AdvisoryFailed(c.id)));
    }
    if c.status.Warning? && p.reviewOnWarning {
      r := Append(r, Finding(HumanReviewRequired, Warned(c.id)));
    }
    if incomplete && (c.severity.Mandatory? || c.severity.DominantFailure?) && p.moreEvidenceOnSkipped {
      r := Append(r, Finding(MoreEvidenceRequired, NotConclusive(c.id)));
    }
    if c.status.Error? {
      var found := FindContradictions(c);
      r := r.(contradictions := r.contradictions + found);
    }
  }

  method FindContradictions(c: Control) returns (found: seq<Contradiction>)
    ensures found == Contradictory(c, c.reasons)
  {
    found := [];
    for i := 0 to |c.reasons|
      invariant found == Contradictory(c, c.reasons[..i])
    {
      if SpeaksOfContradiction(c.reasons[i]) {
        found := found + [Contradiction(c.id, c.reasons[i].text)];
      }
      ContradictoryThen(c, c.reasons[..i], c.reasons[i]);
      assert c.reasons[..i + 1] == c.reasons[..i] + [c.reasons[i]];
    }
    assert c.reasons[..|c.reasons|] == c.reasons;
  }

  /** Appends a candidate decision and, when it obliges, its message. */
  method Append(ledger: Ledger, f: Finding) returns (r: Ledger)
    requires Coherent(ledger)
    ensures r == ledger.(candidates := ledger.candidates + [f], unmet := Causes(r.candidates, Obliges))
  {
    CausesThen(ledger.candidates, f, Obliges);
    r := ledger.(candidates := ledger.candidates + [f]);
    if Obliges(f) {
      r := r.(unmet := r.unmet + [f.cause]);
    }
  }

  /** `GatePolicyEngine.decide`: its first loop, its second loop, its conclusion. */
  method Decide(controls: seq<Control>, metrics: map<string, Number>, p: Policy)
    returns (r: Result<PolicyDecision, PolicyError>)
    ensures r.Ok? <==> AllUsable(p.thresholds, metrics)
    ensures r.Ok? ==> r.value == Decided(controls, metrics, p)
    ensures r.Err? ==> FirstUnusable(p.thresholds, metrics, r.error)
  {
    var ledger := WeighControls(controls, p);
    var weighed := WeighThresholds(ledger, p.thresholds, metrics);
    if weighed.Err? {
      return Err(weighed.error);
    }
    ledger := weighed.value;
    if ledger.candidates == [] {
      return Ok(PolicyDecision(Pass, [EverythingPassed], [], []));
    }
    var final := MaximumDecision(ledger.candidates);
    var relevant := RelevantReasons(ledger.candidates, final);
    r := Ok(PolicyDecision(final, relevant, Dedup(ledger.unmet), Dedup(ledger.contradictions)));
  }

  method WeighControls(controls: seq<Control>, p: Policy) returns (ledger: Ledger)
    ensures ledger.candidates == FromControls(controls, p)
    ensures Coherent(ledger)
    ensures ledger.contradictions == AllContradictions(controls, p)
  {
    ledger := Ledger([], [], []);
    for i := 0 to |controls|
      invariant ledger.candidates == FromControls(controls[..i], p)
      invariant Coherent(ledger)
      invariant ledger.contradictions == AllContradictions(controls[..i], p)
    {
      ledger := ConsiderControl(controls[i], p, ledger);
      ControlsThen(controls[..i], controls[i], p);
      assert controls[..i + 1] == controls[..i] + [controls[i]];
    }
    assert controls[..|controls|] == controls;
  }

  /** What one threshold appends. */
  method ConsiderThreshold(t: Threshold, metrics: map<string, Number>, ledger: Ledger)
    returns (r: Result<Ledger, PolicyError>)
    requires Coherent(ledger)
    ensures r.Err? <==> Unusable(t, metrics)
    ensures r.Err? ==> r.error == MetricNotFinite(t.metric)
    ensures r.Ok? ==> Coherent(r.value) && Extended(ledger, r.value, Listed(ThresholdFinding(t, metrics)))
  {
    if t.metric !in metrics {
      var missing := Append(ledger, Finding(WhenMissing(t.missing), MetricUnavailable(t.metric, t.id)));
      return Ok(missing);
    }
    var actual := metrics[t.metric];
    if actual.NotFinite? {
      return Err(MetricNotFinite(t.metric));
    }
    if Compare(actual.value, t.operator, t.expected) {
      return Ok(ledger);
    }
    var failed := Append(ledger, Finding(t.failureDecision, ThresholdFailed(t, actual.value)));
    return Ok(failed);
  }

  method WeighThresholds(start: Ledger, thresholds: seq<Threshold>, metrics: map<string, Number>)
    returns (r: Result<Ledger, PolicyError>)
    requires Coherent(start)
    ensures r.Ok? <==> AllUsable(thresholds, metrics)
    ensures r.Ok? ==> Coherent(r.value) && Extended(start, r.value, FromThresholds(thresholds, metrics))
    ensures r.Err? ==> FirstUnusable(thresholds, metrics, r.error)
  {
    var ledger := start;
    for i := 0 to |thresholds|
      invariant Coherent(ledger) && Extended(start, ledger, FromThresholds(thresholds[..i], metrics))
      invariant AllUsable(thresholds[..i], metrics)
    {
      NextThreshold(thresholds, i, metrics);
      var considered := ConsiderThreshold(thresholds[i], metrics, ledger);
      if considered.Err? {
        return Err(considered.error);
      }
      ExtendedTwice(start, ledger, considered.value, FromThresholds(thresholds[..i], metrics),
                    Listed(ThresholdFinding(thresholds[i], metrics)));
      ledger := considered.value;
    }
    assert thresholds[..|thresholds|] == thresholds;
    r := Ok(ledger);
  }

  /** Python's `max` with the precedence as its key. */
  method MaximumDecision(candidates: seq<Finding>) returns (d: Decision)
    requires candidates != []
    ensures d == Highest(candidates)
  {
    d := candidates[0].decision;
    CausesThen([], candidates[0], Obliges);
    assert [] + [candidates[0]] == candidates[..1];
    for i := 1 to |candidates|
      invariant d == Highest(candidates[..i])
    {
      if Rank(candidates[i].decision) > Rank(d) { d := candidates[i].decision; }
      CausesThen(candidates[..i], candidates[i], Obliges);
      assert candidates[..i + 1] == candidates[..i] + [candidates[i]];
    }
    assert candidates[..|candidates|] == candidates;
  }

  method RelevantReasons(candidates: seq<Finding>, final: Decision) returns (reasons: seq<Reason>)
    ensures reasons == Explain(Causes(candidates, (f: Finding) => f.decision == final))
  {
    reasons := [];
    ghost var keep := (f: Finding) => f.decision == final;
    for i := 0 to |candidates|
      invariant reasons == Explain(Causes(candidates[..i], keep))
    {
      if Rank(candidates[i].decision) == Rank(final) {
        reasons := reasons + [Because(candidates[i].cause)];
      }
      CausesThen(candidates[..i], candidates[i], keep);
      assert candidates[..i + 1] == candidates[..i] + [candidates[i]];
    }
    assert candidates[..|candidates|] == candidates;
  }
}
