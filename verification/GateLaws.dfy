/** The release policy, stated outright: which controls and thresholds ask for which decision,
    and what the reasons, obligations and contradictions name. */
module GateLaws {
  import opened Prelude
  import opened GateModel
  import opened GatePolicy
  import GateDecisions
  import Text

  // ----- Thresholds -------------------------------------------------------------

  /** The measured value satisfies the threshold. Equality is up to 1e-12, absolutely or
      relative to either value. */
  predicate Satisfies(v: real, t: Threshold) {
    match t.operator
    case GreaterThan => v > t.expected
    case GreaterThanOrEqual => v >= t.expected
    case LessThan => v < t.expected
    case LessThanOrEqual => v <= t.expected
    case Equal => Near(v, t.expected)
    case NotEqual => !Near(v, t.expected)
  }

  predicate Near(v: real, e: real) {
    var distance := if v < e then e - v else v - e;
    var tolerance := 0.000000000001;
    || distance <= tolerance
    || distance <= tolerance * (if v < 0.0 then -v else v)
    || distance <= tolerance * (if e < 0.0 then -e else e)
  }

  lemma ComparesAsStated(v: real, t: Threshold)
    ensures Compare(v, t.operator, t.expected) <==> Satisfies(v, t)
  {}

  /** The metric is missing, or finite and not what the threshold demands. */
  predicate Missing(t: Threshold, metrics: map<string, Number>) { t.metric !in metrics }

  predicate Violated(t: Threshold, metrics: map<string, Number>) {
    t.metric in metrics && metrics[t.metric].Finite? && !Satisfies(metrics[t.metric].value, t)
  }

  /** A threshold gives a finding exactly when its metric is missing or violates it. */
  lemma ThresholdMeans(t: Threshold, metrics: map<string, Number>)
    ensures Missing(t, metrics) ==>
      ThresholdFinding(t, metrics) == Some(Finding(
        match t.missing
        case FailWhenMissing => Fail
        case ReviewWhenMissing => HumanReviewRequired
        case MoreEvidenceWhenMissing => MoreEvidenceRequired,
        MetricUnavailable(t.metric, t.id)))
    ensures Violated(t, metrics) ==>
      ThresholdFinding(t, metrics) == Some(Finding(t.failureDecision, ThresholdFailed(t, metrics[t.metric].value)))
    ensures !Missing(t, metrics) && !Violated(t, metrics) ==> ThresholdFinding(t, metrics) == None
  {
    if t.metric in metrics && metrics[t.metric].Finite? { ComparesAsStated(metrics[t.metric].value, t); }
  }

  // ----- Findings ------------------------------------------------------------------

  predicate Unsuccessful(c: Control) { c.status == Failed || c.status == Error }

  predicate Undecided(c: Control) { c.status == Skipped || c.status == NotApplicable }

  /** The finding one control gives. */
  predicate Gives(c: Control, p: Policy, f: Finding) {
    match f.cause
    case DominantFailed(id) =>
      id == c.id && f.decision == Fail && p.failOnDominant && c.severity == DominantFailure && Unsuccessful(c)
    case MandatoryFailed(id) =>
      id == c.id && f.decision == Fail && p.failOnMandatory && c.severity == Mandatory && Unsuccessful(c)
    case AdvisoryFailed(id) =>
      id == c.id && f.decision == HumanReviewRequired && p.reviewOnAdvisory && c.severity == Advisory && Unsuccessful(c)
    case Warned(id) =>
      id == c.id && f.decision == HumanReviewRequired && p.reviewOnWarning && c.status == Warning
    case NotConclusive(id) =>
      && id == c.id && f.decision == MoreEvidenceRequired && p.moreEvidenceOnSkipped
      && Undecided(c) && (c.severity == Mandatory || c.severity == DominantFailure)
    case _ => false
  }

  /** The decision a missing metric asks for. */
  predicate AsksWhenMissing(action: MissingAction, d: Decision) {
    || (action == FailWhenMissing && d == Fail)
    || (action == ReviewWhenMissing && d == HumanReviewRequired)
    || (action == MoreEvidenceWhenMissing && d == MoreEvidenceRequired)
  }

  /** The finding one threshold gives. */
  predicate Raises(t: Threshold, metrics: map<string, Number>, f: Finding) {
    match f.cause
    case MetricUnavailable(metric, id) =>
      metric == t.metric && id == t.id && Missing(t, metrics) && AsksWhenMissing(t.missing, f.decision)
    case ThresholdFailed(threshold, v) =>
      threshold == t && Violated(t, metrics) && v == metrics[t.metric].value && f.decision == t.failureDecision
    case _ => false
  }

  lemma ControlGives(c: Control, p: Policy, f: Finding)
    ensures ControlFinding(c, p) == Some(f) <==> Gives(c, p, f)
  {}

  lemma ThresholdRaises(t: Threshold, metrics: map<string, Number>, f: Finding)
    ensures ThresholdFinding(t, metrics) == Some(f) <==> Raises(t, metrics, f)
  {
    if t.metric in metrics && metrics[t.metric].Finite? { ComparesAsStated(metrics[t.metric].value, t); }
  }

  /** The findings are those of the controls and of the thresholds, no more and no fewer. */
  lemma FindingsMean(controls: seq<Control>, metrics: map<string, Number>, p: Policy, f: Finding)
    ensures f in Findings(controls, metrics, p) <==>
      || (exists c :: c in controls && Gives(c, p, f))
      || (exists t :: t in p.thresholds && Raises(t, metrics, f))
  {
    GateDecisions.ControlSource(controls, p, f);
    GateDecisions.ThresholdSource(p.thresholds, metrics, f);
    forall c
      ensures ControlFinding(c, p) == Some(f) <==> Gives(c, p, f)
    {
      ControlGives(c, p, f);
    }
    forall t
      ensures ThresholdFinding(t, metrics) == Some(f) <==> Raises(t, metrics, f)
    {
      ThresholdRaises(t, metrics, f);
    }
  }

  // ----- The decision -------------------------------------------------------------------

  /** A control or a threshold asks for this decision. */
  ghost predicate Asked(controls: seq<Control>, metrics: map<string, Number>, p: Policy, d: Decision) {
    || (exists c :: c in controls && AskedBy(c, p, d))
    || (exists t :: t in p.thresholds && Missing(t, metrics) && AsksWhenMissing(t.missing, d))
    || (exists t :: t in p.thresholds && Violated(t, metrics) && t.failureDecision == d)
  }

  /** FAIL for a failed or errored dominant or mandatory control, HUMAN_REVIEW_REQUIRED for an
      advisory one and for a warning, MORE_EVIDENCE_REQUIRED for a mandatory or dominant one
      that was skipped or not applicable, each if the policy says so. */
  predicate AskedBy(c: Control, p: Policy, d: Decision) {
    match d
    case Fail =>
      && Unsuccessful(c)
      && ((c.severity == DominantFailure && p.failOnDominant) || (c.severity == Mandatory && p.failOnMandatory))
    case HumanReviewRequired =>
      || (Unsuccessful(c) && c.severity == Advisory && p.reviewOnAdvisory)
      || (c.status == Warning && p.reviewOnWarning)
    case MoreEvidenceRequired =>
      Undecided(c) && (c.severity == Mandatory || c.severity == DominantFailure) && p.moreEvidenceOnSkipped
    case Pass => false
  }

  /** The decision is the strictest that is asked for: FAIL before HUMAN_REVIEW_REQUIRED before
      MORE_EVIDENCE_REQUIRED, and PASS if nothing is. */
  lemma DecisionIsStrictest(controls: seq<Control>, metrics: map<string, Number>, p: Policy)
    requires ValidPolicy(p)
    ensures
      Decided(controls, metrics, p).decision ==
      if Asked(controls, metrics, p, Fail) then Fail
      else if Asked(controls, metrics, p, HumanReviewRequired) then HumanReviewRequired
      else if Asked(controls, metrics, p, MoreEvidenceRequired) then MoreEvidenceRequired
      else Pass
  {
    GateDecisions.DecisionIsHighestFinding(controls, metrics, p);
    AskedMeans(controls, metrics, p, Fail);
    AskedMeans(controls, metrics, p, HumanReviewRequired);
    AskedMeans(controls, metrics, p, MoreEvidenceRequired);
  }

  lemma AskedMeans(controls: seq<Control>, metrics: map<string, Number>, p: Policy, d: Decision)
    requires d != Pass
    ensures Asked(controls, metrics, p, d) <==>
      GateDecisions.AskedByControl(controls, p, d) || GateDecisions.AskedByThreshold(p, metrics, d)
  {
    forall c
      ensures AskedBy(c, p, d) <==> ControlFinding(c, p).Some? && ControlFinding(c, p).value.decision == d
    {
      ControlAsks(c, p, d);
    }
    forall t
      ensures
        (Missing(t, metrics) && AsksWhenMissing(t.missing, d)) || (Violated(t, metrics) && t.failureDecision == d)
        <==> ThresholdFinding(t, metrics).Some? && ThresholdFinding(t, metrics).value.decision == d
    {
      ThresholdMeans(t, metrics);
    }
  }

  lemma ControlAsks(c: Control, p: Policy, d: Decision)
    requires d != Pass
    ensures AskedBy(c, p, d) <==> ControlFinding(c, p).Some? && ControlFinding(c, p).value.decision == d
  {}

  // ----- What the decision names --------------------------------------------------------

  /** A reason is given exactly if it is the cause of a finding that asks for the decision. */
  lemma ReasonsMean(controls: seq<Control>, metrics: map<string, Number>, p: Policy, x: Cause)
    requires Findings(controls, metrics, p) != []
    ensures
      var r := Decided(controls, metrics, p);
      Because(x) in r.reasons <==>
        || (exists c :: c in controls && Gives(c, p, Finding(r.decision, x)))
        || (exists t :: t in p.thresholds && Raises(t, metrics, Finding(r.decision, x)))
  {
    GateDecisions.ReasonsAreExact(controls, metrics, p, x);
    FindingsMean(controls, metrics, p, Finding(Decided(controls, metrics, p).decision, x));
  }

  /** An undecided control that matters, a missing metric, or a violated threshold that asks
      for more evidence. */
  ghost predicate Owed(controls: seq<Control>, metrics: map<string, Number>, p: Policy, x: Cause) {
    match x
    case NotConclusive(id) =>
      && p.moreEvidenceOnSkipped
      && exists c :: c in controls && c.id == id && Undecided(c) && (c.severity == Mandatory || c.severity == DominantFailure)
    case MetricUnavailable(metric, id) =>
      exists t :: t in p.thresholds && t.metric == metric && t.id == id && Missing(t, metrics)
    case ThresholdFailed(t, v) =>
      && t in p.thresholds && Violated(t, metrics) && v == metrics[t.metric].value
      && t.failureDecision == MoreEvidenceRequired
    case _ => false
  }

  /** The unmet obligations are exactly those. */
  lemma ObligationsMean(controls: seq<Control>, metrics: map<string, Number>, p: Policy, x: Cause)
    ensures x in Decided(controls, metrics, p).unmet <==> Owed(controls, metrics, p, x)
  {
    GateDecisions.ObligationsAreExact(controls, metrics, p, x);
    ObligationsAre(controls, metrics, p, x);
    if Owed(controls, metrics, p, x) { OwedIsFound(controls, metrics, p, x); }
    if d: Decision :| Finding(d, x) in Findings(controls, metrics, p) && Obliges(Finding(d, x)) {
      FoundIsOwed(controls, metrics, p, x, d);
    }
  }

  lemma FoundIsOwed(controls: seq<Control>, metrics: map<string, Number>, p: Policy, x: Cause, d: Decision)
    requires Finding(d, x) in Findings(controls, metrics, p) && Obliges(Finding(d, x))
    ensures Owed(controls, metrics, p, x)
  {
    FindingsMean(controls, metrics, p, Finding(d, x));
  }

  lemma OwedIsFound(controls: seq<Control>, metrics: map<string, Number>, p: Policy, x: Cause)
    requires Owed(controls, metrics, p, x)
    ensures exists d: Decision :: Finding(d, x) in Findings(controls, metrics, p) && Obliges(Finding(d, x))
  {
    match x {
      case NotConclusive(id) =>
        var c :| c in controls && c.id == id && Undecided(c) && (c.severity == Mandatory || c.severity == DominantFailure);
        assert Gives(c, p, Finding(MoreEvidenceRequired, x));
        FindingsMean(controls, metrics, p, Finding(MoreEvidenceRequired, x));
      case MetricUnavailable(metric, id) =>
        var t :| t in p.thresholds && t.metric == metric && t.id == id && Missing(t, metrics);
        assert Raises(t, metrics, Finding(WhenMissing(t.missing), x));
        FindingsMean(controls, metrics, p, Finding(WhenMissing(t.missing), x));
      case ThresholdFailed(t, v) =>
        assert Raises(t, metrics, Finding(t.failureDecision, x));
        FindingsMean(controls, metrics, p, Finding(t.failureDecision, x));
    }
  }

  lemma ObligationsAre(controls: seq<Control>, metrics: map<string, Number>, p: Policy, x: Cause)
    ensures (exists f :: f in Findings(controls, metrics, p) && Obliges(f) && f.cause == x) <==>
            exists d: Decision :: Finding(d, x) in Findings(controls, metrics, p) && Obliges(Finding(d, x))
  {
    if f :| f in Findings(controls, metrics, p) && Obliges(f) && f.cause == x {
      assert f == Finding(f.decision, x);
    }
  }

  /** A contradiction is reported exactly if an errored control gives that reason, the reason
      speaks of a contradiction, and the control is not failed by the policy. */
  lemma ContradictionsMean(controls: seq<Control>, metrics: map<string, Number>, p: Policy, x: Contradiction)
    requires Findings(controls, metrics, p) != []
    ensures x in Decided(controls, metrics, p).contradictions <==>
      exists c, reason :: c in controls && reason in c.reasons && c.id == x.id && reason.text == x.reason
        && c.status == Error && Text.Contains(reason.folded, "contradict")
        && !(c.severity == DominantFailure && p.failOnDominant) && !(c.severity == Mandatory && p.failOnMandatory)
  {
    GateDecisions.ContradictionsAreExact(controls, metrics, p, x);
    forall c
      ensures GateDecisions.Contradicts(c, p, x.reason) <==>
        exists reason :: reason in c.reasons && reason.text == x.reason
          && c.status == Error && Text.Contains(reason.folded, "contradict")
          && !(c.severity == DominantFailure && p.failOnDominant) && !(c.severity == Mandatory && p.failOnMandatory)
    {
      ContradictsMeans(c, p, x.reason);
    }
  }

  lemma ContradictsMeans(c: Control, p: Policy, text: string)
    ensures GateDecisions.Contradicts(c, p, text) <==>
      exists reason :: reason in c.reasons && reason.text == text
        && c.status == Error && Text.Contains(reason.folded, "contradict")
        && !(c.severity == DominantFailure && p.failOnDominant) && !(c.severity == Mandatory && p.failOnMandatory)
  {
    if reason :| reason in c.reasons && reason.text == text && Text.Contains(reason.folded, "contradict") {
      assert SpeaksOfContradiction(reason);
    }
  }
}
