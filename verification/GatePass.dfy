/** When the gate passes, what a PASS means, and which controls can never be part of one. */
module GatePass {
  import opened Prelude
  import opened GateModel
  import opened GateControls
  import opened GatePolicy
  import opened GateEvaluation
  import GateDecisions
  import GateLaws

  // ----- When the gate passes ---------------------------------------------------

  predicate IsPass(r: Result<GateResult, GateError>) {
    r.Ok? && r.value.decision.decision == Pass
  }

  /** `c` stands in no PASS's way: it passed, or what else it is has no consequence. */
  predicate Quiet(c: Control, p: Policy) {
    match c.status
    case Passed => true
    case Warning => !p.reviewOnWarning
    case Skipped => !p.moreEvidenceOnSkipped || c.severity.Informational? || c.severity.Advisory?
    case NotApplicable => !p.moreEvidenceOnSkipped || c.severity.Informational? || c.severity.Advisory?
    case Failed => c.severity.Informational? || (c.severity.Advisory? && !p.reviewOnAdvisory)
    case Error => c.severity.Informational? || (c.severity.Advisory? && !p.reviewOnAdvisory)
  }

  /** It gives the policy no finding, and the contract nothing to refuse. */
  lemma QuietMeans(c: Control, p: Policy)
    ensures Quiet(c, p) <==>
      ControlFinding(c, p).None? && !(Failing(c.status) && (c.severity.Mandatory? || c.severity.DominantFailure?))
  {}

  /** The threshold's metric is among those listed and satisfies it. */
  predicate Met(t: Threshold, flat: seq<Metric>) {
    exists i :: 0 <= i < |flat| && flat[i].name == t.metric && flat[i].value.Finite?
             && GateLaws.Satisfies(flat[i].value.value, t)
  }

  /** Every control is quiet, every threshold is met and the metrics have one namespace. */
  predicate NothingInTheWay(controls: seq<Control>, p: Policy) {
    && Normalizable(Flat(controls))
    && (forall c :: c in controls ==> Quiet(c, p))
    && forall t :: t in p.thresholds ==> Met(t, Flat(controls))
  }

  lemma MetExactlyWhen(t: Threshold, metrics: map<string, Number>, flat: seq<Metric>)
    requires Maps(metrics, flat) && Normalizable(flat)
    ensures Met(t, flat) <==> ThresholdFinding(t, metrics).None?
  {
    GateLaws.ThresholdMeans(t, metrics);
    if ThresholdFinding(t, metrics).None? {
      var i :| 0 <= i < |flat| && flat[i].name == t.metric;
    }
  }

  /** No finding at all, in terms of the controls and thresholds. */
  lemma NoFindings(controls: seq<Control>, metrics: map<string, Number>, p: Policy)
    ensures Findings(controls, metrics, p) == [] <==>
      && (forall c :: c in controls ==> ControlFinding(c, p).None?)
      && forall t :: t in p.thresholds ==> ThresholdFinding(t, metrics).None?
  {
    if Findings(controls, metrics, p) == [] {
      forall c | c in controls
        ensures ControlFinding(c, p).None?
      {
        if ControlFinding(c, p).Some? { GateDecisions.ControlSource(controls, p, ControlFinding(c, p).value); }
      }
      forall t | t in p.thresholds
        ensures ThresholdFinding(t, metrics).None?
      {
        if ThresholdFinding(t, metrics).Some? {
          GateDecisions.ThresholdSource(p.thresholds, metrics, ThresholdFinding(t, metrics).value);
        }
      }
    } else {
      var f := Findings(controls, metrics, p)[0];
      GateDecisions.ControlSource(controls, p, f);
      GateDecisions.ThresholdSource(p.thresholds, metrics, f);
      assert f in FromControls(controls, p) || f in FromThresholds(p.thresholds, metrics);
    }
  }

  lemma JudgedPasses(controls: seq<Control>, metrics: map<string, Number>, p: Policy)
    requires ValidPolicy(p) && Maps(metrics, Flat(controls)) && Normalizable(Flat(controls))
    ensures IsPass(Judged(controls, metrics, p)) <==> NothingInTheWay(controls, p)
  {
    GateDecisions.PassMeansNoFinding(controls, metrics, p);
    GateDecisions.AcceptedExactlyWhen(controls, metrics, p);
    NoFindings(controls, metrics, p);
    forall c
      ensures Quiet(c, p) <==>
        ControlFinding(c, p).None? && !(Failing(c.status) && (c.severity.Mandatory? || c.severity.DominantFailure?))
    {
      QuietMeans(c, p);
    }
    forall t | t in p.thresholds
      ensures Met(t, Flat(controls)) <==> ThresholdFinding(t, metrics).None?
    {
      MetExactlyWhen(t, metrics, Flat(controls));
    }
  }

  /** A mandatory failure keeps any judgement from being a PASS. */
  lemma MandatoryFailureBlocks(controls: seq<Control>, metrics: map<string, Number>, p: Policy)
    requires ValidPolicy(p) && MandatoryFailurePresent(controls)
    ensures !IsPass(Judged(controls, metrics, p))
  {
    GateDecisions.AcceptedExactlyWhen(controls, metrics, p);
  }

  lemma ConclusionPasses(controls: seq<Control>, p: Policy, summary: Remark, r: Result<GateResult, GateError>)
    requires ValidPolicy(p) && Concludes(controls, p, summary, r)
    ensures IsPass(r) <==> NothingInTheWay(controls, p)
    ensures IsPass(r) ==> r.value.controls == controls
  {
    if Normalizable(Flat(controls)) {
      var metrics :| Maps(metrics, Flat(controls)) && r == Judged(controls, metrics, p);
      JudgedPasses(controls, metrics, p);
    } else if Normalizable(Flat(Remaining(controls))) {
      var failure := NormalizationFailure(summary);
      var metrics :| Maps(metrics, Flat(Remaining(controls))) && r == Judged(controls + [failure], metrics, p);
      assert failure in controls + [failure];
      MandatoryFailureBlocks(controls + [failure], metrics, p);
    }
  }

  /** The gate passes exactly when the candidate is in scope, no control raises, all metrics
      have one namespace, every control that ran is quiet and every threshold is met. */
  lemma PassesExactlyWhen(
    prep: Preparation, specs: seq<ControlSpec>, observe: nat -> Observation, render: Problem -> Remark,
    p: Policy, summary: Remark, r: Result<GateResult, GateError>)
    requires ValidPolicy(p) && Evaluated(prep, specs, observe, render, p, summary, r)
    ensures
      var run := Executed(specs, 0, observe, render);
      && (IsPass(r) <==> prep.InScope? && run.Ok? && NothingInTheWay(Builtins(prep) + run.value, p))
      && (IsPass(r) ==> r.value.controls == Builtins(prep) + run.value)
  {
    var run := Executed(specs, 0, observe, render);
    BuiltinsFail(prep);
    if !prep.InScope? {
      ConclusionPasses(Builtins(prep), p, summary, r);
    } else if run.Ok? {
      ConclusionPasses(Builtins(prep) + run.value, p, summary, r);
    }
  }

  // ----- Controls that end the gate ----------------------------------------------

  /** The controls from `i` on let the sequence go as far as `k`. */
  ghost predicate Reached(
    specs: seq<ControlSpec>, i: nat, k: nat, observe: nat -> Observation, render: Problem -> Remark)
  {
    && i <= k < |specs|
    && forall j: nat :: i <= j < k ==> GoesOn(specs[j], observe(j), render)
  }

  predicate GoesOn(spec: ControlSpec, o: Observation, render: Problem -> Remark) {
    ControlOf(spec, o, render).Ok? && !Stops(spec, ControlOf(spec, o, render).value)
  }

  /** Running control `k` raises `e`. */
  predicate RaisedBy(
    specs: seq<ControlSpec>, k: nat, observe: nat -> Observation, render: Problem -> Remark, e: GateError)
  {
    k < |specs| && ControlOf(specs[k], observe(k), render) == Err(e)
  }

  /** The sequence fails exactly with the error of a control that it reaches. */
  lemma {:induction false} SequenceFails(
    specs: seq<ControlSpec>, i: nat, observe: nat -> Observation, render: Problem -> Remark, e: GateError)
    requires i <= |specs|
    ensures Executed(specs, i, observe, render) == Err(e) <==>
      exists k: nat :: Reached(specs, i, k, observe, render) && RaisedBy(specs, k, observe, render, e)
    decreases |specs| - i
  {
    if i < |specs| {
      if GoesOn(specs[i], observe(i), render) {
        SequenceFails(specs, i + 1, observe, render, e);
        ReachedFurther(specs, i, observe, render);
      } else {
        assert Reached(specs, i, i, observe, render);
      }
    }
  }

  lemma ReachedFurther(specs: seq<ControlSpec>, i: nat, observe: nat -> Observation, render: Problem -> Remark)
    requires i < |specs| && GoesOn(specs[i], observe(i), render)
    ensures forall k: nat :: k != i ==> (Reached(specs, i, k, observe, render) <==> Reached(specs, i + 1, k, observe, render))
  {}

  /** Of the errors of `evaluate`, those a control raises come from a control that is reached. */
  lemma GateFailsByControl(
    specs: seq<ControlSpec>, observe: nat -> Observation, render: Problem -> Remark,
    prep: Preparation, p: Policy, summary: Remark, r: Result<GateResult, GateError>, e: GateError)
    requires prep.InScope? && Evaluated(prep, specs, observe, render, p, summary, r)
    requires e.OutOfBudget? || e.StorageFailed? || e.TreeUnverifiable? || e.ControlRejected?
    ensures r == Err(e) <==>
      exists k: nat :: Reached(specs, 0, k, observe, render) && RaisedBy(specs, k, observe, render, e)
  {
    SequenceFails(specs, 0, observe, render, e);
    if Executed(specs, 0, observe, render).Ok? {
      ConclusionErrors(Builtins(prep) + Executed(specs, 0, observe, render).value, p, summary, r);
    }
  }

  lemma ConclusionErrors(controls: seq<Control>, p: Policy, summary: Remark, r: Result<GateResult, GateError>)
    requires Concludes(controls, p, summary, r)
    ensures r.Err? ==> r.error == NotNormalizable || r.error == ResultRejected
  {}

  /** A control of dominant severity that is reached and passes ends the gate: its result
      is refused. Nothing else refuses a result whose metrics are usable. */
  lemma PassingDominantControlEndsGate(
    specs: seq<ControlSpec>, observe: nat -> Observation, render: Problem -> Remark,
    prep: Preparation, p: Policy, summary: Remark, r: Result<GateResult, GateError>, k: nat)
    requires prep.InScope? && Evaluated(prep, specs, observe, render, p, summary, r)
    requires Reached(specs, 0, k, observe, render) && specs[k].severity.DominantFailure?
    requires Passes(specs[k], observe(k))
    ensures r == Err(ControlRejected)
  {
    NotStoredIsNotAcceptable(specs[k], observe(k));
    RejectedExactlyWhen(specs[k], observe(k), render);
    GateFailsByControl(specs, observe, render, prep, p, summary, r, ControlRejected);
  }

  lemma NotStoredIsNotAcceptable(spec: ControlSpec, o: Observation)
    requires Passes(spec, o)
    ensures Completes(spec, o)
  {}

  // ----- What a PASS guarantees ----------------------------------------------------

  /** A failing control of this severity is passed over by the policy and the contract. */
  predicate Ignored(severity: Severity, p: Policy) {
    severity.Informational? || (severity.Advisory? && !p.reviewOnAdvisory)
  }

  /** What running a control gives is quiet exactly when it passed, or failed with a
      severity that is ignored; a dominant one never is. */
  lemma QuietExactlyWhen(spec: ControlSpec, o: Observation, render: Problem -> Remark, p: Policy)
    requires ControlOf(spec, o, render).Ok?
    ensures Quiet(ControlOf(spec, o, render).value, p)
       <==> !spec.severity.DominantFailure? && (Passes(spec, o) || Ignored(spec.severity, p))
  {
    PassedExactlyWhen(spec, o, render);
  }

  /** In a passing run each control passed or is ignored, and none is dominant. */
  predicate PassedAt(
    specs: seq<ControlSpec>, k: nat, observe: nat -> Observation, render: Problem -> Remark, p: Policy, c: Control)
  {
    && IsControl(specs, k, observe, render, c)
    && !specs[k].severity.DominantFailure?
    && (Passes(specs[k], observe(k)) || Ignored(specs[k].severity, p))
  }

  /** The control that stopped the sequence was allowed to, and failed without consequence. */
  predicate StoppedQuietly(spec: ControlSpec, c: Control, p: Policy) {
    Ignored(spec.severity, p) && !spec.continueAfterFailure && Failing(c.status)
  }

  ghost predicate PassedRun(
    prep: Preparation, specs: seq<ControlSpec>, observe: nat -> Observation, render: Problem -> Remark,
    p: Policy, controls: seq<Control>)
  {
    && prep.InScope?
    && 2 <= |controls| <= |specs| + 2 && controls[..2] == Builtins(prep)
    && RunPassed(specs, observe, render, p, controls[2..])
  }

  ghost predicate RunPassed(
    specs: seq<ControlSpec>, observe: nat -> Observation, render: Problem -> Remark, p: Policy, run: seq<Control>)
    requires |run| <= |specs|
  {
    && (forall k :: 0 <= k < |run| ==> PassedAt(specs, k, observe, render, p, run[k]))
    && (|run| < |specs| ==> run != [] && StoppedQuietly(specs[|run| - 1], run[|run| - 1], p))
  }

  /** Whatever the policy's flags, a PASS means that the candidate was rebuilt and in
      scope, that every control that ran passed unless its severity is ignored, and that
      all configured controls ran unless such a control failed and stopped the sequence. */
  lemma PassMeansControlsPassed(
    prep: Preparation, specs: seq<ControlSpec>, observe: nat -> Observation, render: Problem -> Remark,
    p: Policy, summary: Remark, r: Result<GateResult, GateError>)
    requires ValidPolicy(p) && Evaluated(prep, specs, observe, render, p, summary, r) && IsPass(r)
    ensures PassedRun(prep, specs, observe, render, p, r.value.controls)
  {
    PassesExactlyWhen(prep, specs, observe, render, p, summary, r);
    SequenceIsPrefix(specs, 0, observe, render);
    var run := Executed(specs, 0, observe, render).value;
    QuietRunPassed(specs, observe, render, p, Builtins(prep), run);
    assert (Builtins(prep) + run)[2..] == run && (Builtins(prep) + run)[..2] == Builtins(prep);
  }

  lemma QuietRunPassed(
    specs: seq<ControlSpec>, observe: nat -> Observation, render: Problem -> Remark, p: Policy,
    builtins: seq<Control>, run: seq<Control>)
    requires IsSequence(specs, 0, observe, render, run)
    requires forall c :: c in builtins + run ==> Quiet(c, p)
    ensures RunPassed(specs, observe, render, p, run)
  {
    forall k | 0 <= k < |run|
      ensures PassedAt(specs, k, observe, render, p, run[k])
    {
      assert run[k] in builtins + run;
      assert IsControl(specs, 0 + k, observe, render, run[k]);
      QuietExactlyWhen(specs[k], observe(k), render, p);
    }
    if |run| < |specs| { StoppedQuietlyAt(specs, |run| - 1, observe, render, p, run[|run| - 1]); }
  }

  lemma StoppedQuietlyAt(
    specs: seq<ControlSpec>, k: nat, observe: nat -> Observation, render: Problem -> Remark, p: Policy, c: Control)
    requires PassedAt(specs, k, observe, render, p, c) && Stops(specs[k], c)
    ensures StoppedQuietly(specs[k], c, p)
  {
    PassedExactlyWhen(specs[k], observe(k), render);
  }
}
