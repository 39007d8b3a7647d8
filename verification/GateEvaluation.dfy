/** The gate service: builtin controls, the control sequence, normalization, decision. */
module GateEvaluation {
  import opened Prelude
  import opened GateModel
  import opened GateControls
  import opened GatePolicy

  /** How reconstruction of the candidate and the scope check went. */
  datatype Preparation =
    | NotReconstructed(summary: Remark)
    | ScopeNotChecked(changedFiles: nat, summary: Remark)
    | OutOfScope(changedFiles: nat, summary: Remark)
    | InScope(changedFiles: nat)

  datatype GateResult = GateResult(
    controls: seq<Control>, metrics: map<string, Number>, decision: PolicyDecision)

  const INTEGRITY := "candidate-integrity"
  const SCOPE := "change-scope"
  const NORMALIZATION := "evidence-normalization"

  function PassedBuiltin(id: string, metrics: seq<Metric>): Control {
    Control(id, Passed, Mandatory, metrics, [])
  }

  function FailedBuiltin(id: string, severity: Severity, metrics: seq<Metric>, summary: Remark): Control {
    Control(id, Failed, severity, metrics, [summary])
  }

  function Count(n: nat): Number { Finite(n as real) }

  function Intact(changedFiles: nat): Control {
    PassedBuiltin(INTEGRITY, [Metric("changed_files", Count(changedFiles))])
  }

  function Uncertain(summary: Remark): Control {
    FailedBuiltin(INTEGRITY, DominantFailure, [Metric("candidate_integrity_failure", Finite(1.0))], summary)
  }

  function Authorized(changedFiles: nat): Control {
    PassedBuiltin(SCOPE, [Metric("changed_files", Count(changedFiles)), Metric("scope_violations", Finite(0.0))])
  }

  function Unauthorized(summary: Remark): Control {
    FailedBuiltin(SCOPE, DominantFailure, [Metric("scope_violations", Finite(1.0))], summary)
  }

  function Builtins(prep: Preparation): (r: seq<Control>)
    ensures |r| == if prep.NotReconstructed? then 1 else 2
  {
    match prep
    case NotReconstructed(summary) => [Uncertain(summary)]
    case ScopeNotChecked(n, summary) => [Intact(n), Uncertain(summary)]
    case OutOfScope(n, summary) => [Intact(n), Unauthorized(summary)]
    case InScope(n) => [Intact(n), Authorized(n)]
  }

  function NormalizationFailure(summary: Remark): Control {
    FailedBuiltin(NORMALIZATION, Mandatory, [Metric("normalization_failure", Finite(1.0))], summary)
  }

  predicate Stops(spec: ControlSpec, c: Control) {
    Failing(c.status) && !spec.continueAfterFailure
  }

  // ----- Specification -------------------------------------------------------------

  /** The controls run from specification `i` on, up to and including the one that stops
      the sequence; `observe(k)` is what running the k-th would show. */
  function Executed(specs: seq<ControlSpec>, i: nat, observe: nat -> Observation, render: Problem -> Remark)
    : Result<seq<Control>, GateError>
    requires i <= |specs|
    decreases |specs| - i
  {
    if i == |specs| then Ok([])
    else
      var c := ControlOf(specs[i], observe(i), render);
      if c.Err? then Err(c.error)
      else if Stops(specs[i], c.value) then Ok([c.value])
      else
        var rest := Executed(specs, i + 1, observe, render);
        if rest.Err? then rest else Ok([c.value] + rest.value)
  }

  predicate NotNormalizationControl(c: Control) { c.id != NORMALIZATION }

  /** The controls the fallback normalizes again, after a first failure. */
  function Remaining(controls: seq<Control>): seq<Control> {
    Filter(controls, NotNormalizationControl)
  }

  /** What the result of the gate must be, given the controls that ran. */
  ghost predicate Concludes(
    controls: seq<Control>, policy: Policy, summary: Remark, r: Result<GateResult, GateError>)
  {
    if Normalizable(Flat(controls)) then
      exists metrics :: Maps(metrics, Flat(controls)) && r == Judged(controls, metrics, policy)
    else if Normalizable(Flat(Remaining(controls))) then
      exists metrics :: Maps(metrics, Flat(Remaining(controls)))
        && r == Judged(controls + [NormalizationFailure(summary)], metrics, policy)
    else r == Err(NotNormalizable)
  }

  /** The policy's decision, put through the contract of the gate result. */
  function Judged(controls: seq<Control>, metrics: map<string, Number>, policy: Policy): Result<GateResult, GateError> {
    var decision := Decided(controls, metrics, policy);
    if ContractAccepts(controls, decision.decision, decision.unmet, decision.contradictions)
    then Ok(GateResult(controls, metrics, decision)) else Err(ResultRejected)
  }

  /** What `evaluate` returns, end to end. */
  ghost predicate Evaluated(
    prep: Preparation, specs: seq<ControlSpec>, observe: nat -> Observation, render: Problem -> Remark,
    policy: Policy, summary: Remark, r: Result<GateResult, GateError>)
  {
    if !prep.InScope? then Concludes(Builtins(prep), policy, summary, r)
    else
      var run := Executed(specs, 0, observe, render);
      if run.Err? then r == Err(run.error) else Concludes(Builtins(prep) + run.value, policy, summary, r)
  }

  // ----- Implementation -------------------------------------------------------------

  /** `ReleaseGateService.evaluate`, from reconstruction to the gate result. */
  method Evaluate(
    prep: Preparation, specs: seq<ControlSpec>, observe: nat -> Observation, render: Problem -> Remark,
    policy: Policy, summary: Remark)
    returns (r: Result<GateResult, GateError>)
    ensures Evaluated(prep, specs, observe, render, policy, summary, r)
  {
    var controls := Builtins(prep);
    var dominantFailure := exists c :: c in controls && c.severity.DominantFailure? && Failing(c.status);
    assert dominantFailure <==> !prep.InScope? by { BuiltinsFail(prep); }
    if !dominantFailure {
      var run := RunSequence(specs, observe, render);
      if run.Err? {
        return Err(run.error);
      }
      controls := controls + run.value;
    }
    r := Conclude(controls, policy, summary);
  }

  lemma BuiltinsFail(prep: Preparation)
    ensures DominantFailurePresent(Builtins(prep)) <==> !prep.InScope?
    ensures prep.InScope? ==> !MandatoryFailurePresent(Builtins(prep))
  {
    var builtins := Builtins(prep);
    if !prep.InScope? {
      var last := builtins[|builtins| - 1];
      assert last in builtins && last.severity.DominantFailure? && Failing(last.status);
    }
  }

  method RunSequence(specs: seq<ControlSpec>, observe: nat -> Observation, render: Problem -> Remark)
    returns (r: Result<seq<Control>, GateError>)
    ensures r == Executed(specs, 0, observe, render)
  {
    var controls: seq<Control> := [];
    ResumedNone(Executed(specs, 0, observe, render));
    for i := 0 to |specs|
      invariant Executed(specs, 0, observe, render)
             == Resumed(controls, Executed(specs, i, observe, render))
    {
      var result := RunControl(specs[i], observe(i), render);
      if result.Err? {
        return Err(result.error);
      }
      ResumedOne(controls, result.value, Executed(specs, i + 1, observe, render));
      controls := controls + [result.value];
      if (result.value.status.Failed? || result.value.status.Error?) && !specs[i].continueAfterFailure {
        return Ok(controls);
      }
    }
    r := Ok(controls);
    assert controls + [] == controls;
  }

  function Resumed(done: seq<Control>, rest: Result<seq<Control>, GateError>): Result<seq<Control>, GateError> {
    if rest.Err? then rest else Ok(done + rest.value)
  }

  lemma ResumedNone(rest: Result<seq<Control>, GateError>)
    ensures Resumed([], rest) == rest
  {
    if rest.Ok? { assert [] + rest.value == rest.value; }
  }

  lemma ResumedOne(done: seq<Control>, c: Control, rest: Result<seq<Control>, GateError>)
    ensures Resumed(done + [c], rest) == Resumed(done, Resumed([c], rest))
  {
    if rest.Ok? { assert (done + [c]) + rest.value == done + ([c] + rest.value); }
  }

  method Conclude(ran: seq<Control>, policy: Policy, summary: Remark) returns (r: Result<GateResult, GateError>)
    ensures Concludes(ran, policy, summary, r)
  {
    var controls := ran;
    var metrics := NamespaceMetrics(controls);
    if metrics.Err? {
      controls := controls + [NormalizationFailure(summary)];
      RemainingIgnoresFailure(ran, summary);
      metrics := NamespaceMetrics(Filter(controls, NotNormalizationControl));
      if metrics.Err? {
        return Err(metrics.error);
      }
      MetricsAreUsable(metrics.value, Flat(Remaining(ran)), policy);
    } else {
      MetricsAreUsable(metrics.value, Flat(ran), policy);
    }
    var decided := Decide(controls, metrics.value, policy);
    var decision := decided.value;
    if ContractAccepts(controls, decision.decision, decision.unmet, decision.contradictions) {
      r := Ok(GateResult(controls, metrics.value, decision));
    } else {
      r := Err(ResultRejected);
    }
    assert r == Judged(controls, metrics.value, policy);
  }

  lemma RemainingIgnoresFailure(controls: seq<Control>, summary: Remark)
    ensures Remaining(controls + [NormalizationFailure(summary)]) == Remaining(controls)
  {
    var failure := NormalizationFailure(summary);
    if controls == [] {
      assert controls + [failure] == [failure];
      assert Filter([failure][1..], NotNormalizationControl) == [];
    } else {
      RemainingIgnoresFailure(controls[1..], summary);
      assert (controls + [failure])[1..] == controls[1..] + [failure];
    }
  }

  /** Normalized metrics are finite, so the policy can always be evaluated. */
  lemma MetricsAreUsable(metrics: map<string, Number>, flat: seq<Metric>, policy: Policy)
    requires Maps(metrics, flat) && Normalizable(flat)
    ensures AllUsable(policy.thresholds, metrics)
  {
    forall i | 0 <= i < |policy.thresholds|
      ensures !Unusable(policy.thresholds[i], metrics)
    {
      var name := policy.thresholds[i].metric;
      if name in metrics {
        var k :| 0 <= k < |flat| && flat[k].name == name;
      }
    }
  }

  /** Nothing is left open: the namespace lists its metrics in one way only, so the
      specification has one result. */
  lemma EvaluatedIsUnique(
    prep: Preparation, specs: seq<ControlSpec>, observe: nat -> Observation, render: Problem -> Remark,
    policy: Policy, summary: Remark, r: Result<GateResult, GateError>, s: Result<GateResult, GateError>)
    requires Evaluated(prep, specs, observe, render, policy, summary, r)
    requires Evaluated(prep, specs, observe, render, policy, summary, s)
    ensures r == s
  {
    if !prep.InScope? {
      ConclusionIsUnique(Builtins(prep), policy, summary, r, s);
    } else if Executed(specs, 0, observe, render).Ok? {
      ConclusionIsUnique(Builtins(prep) + Executed(specs, 0, observe, render).value, policy, summary, r, s);
    }
  }

  lemma ConclusionIsUnique(
    controls: seq<Control>, policy: Policy, summary: Remark,
    r: Result<GateResult, GateError>, s: Result<GateResult, GateError>)
    requires Concludes(controls, policy, summary, r) && Concludes(controls, policy, summary, s)
    ensures r == s
  {
    forall flat, m, n | Maps(m, flat) && Maps(n, flat)
      ensures m == n
    {
      MapsIsUnique(m, n, flat);
    }
  }

  // ----- The fallback ----------------------------------------------------------------

  /** Dropping the synthetic control changes nothing unless a configured control bears
      its name, so otherwise a normalization failure always ends the gate. */
  lemma FallbackRecoversOnlyByName(
    controls: seq<Control>, policy: Policy, summary: Remark, r: Result<GateResult, GateError>)
    requires Concludes(controls, policy, summary, r) && !Normalizable(Flat(controls))
    ensures r != Err(NotNormalizable) <==> Normalizable(Flat(Remaining(controls)))
    ensures (forall c :: c in controls ==> c.id != NORMALIZATION) ==> r == Err(NotNormalizable)
  {
    if forall c :: c in controls ==> c.id != NORMALIZATION {
      KeepsAll(controls);
    }
  }

  lemma {:induction false} KeepsAll(controls: seq<Control>)
    requires forall c :: c in controls ==> c.id != NORMALIZATION
    ensures Remaining(controls) == controls
  {
    if controls != [] { KeepsAll(controls[1..]); }
  }

  // ----- The control sequence -----------------------------------------------------------

  /** `run` is what the controls from `i` on yield, in order, each as observed; only its
      last control may have stopped the sequence, and one did if controls are left over. */
  ghost predicate IsSequence(
    specs: seq<ControlSpec>, i: nat, observe: nat -> Observation, render: Problem -> Remark, run: seq<Control>)
  {
    && i + |run| <= |specs|
    && (forall k :: 0 <= k < |run| ==> IsControl(specs, i + k, observe, render, run[k]))
    && (forall k :: 0 <= k < |run| - 1 ==> !Stops(specs[i + k], run[k]))
    && (i + |run| < |specs| ==> run != [] && Stops(specs[i + |run| - 1], run[|run| - 1]))
  }

  predicate IsControl(
    specs: seq<ControlSpec>, k: nat, observe: nat -> Observation, render: Problem -> Remark, c: Control)
  {
    k < |specs| && ControlOf(specs[k], observe(k), render) == Ok(c)
  }

  lemma SequenceIsPrefix(
    specs: seq<ControlSpec>, i: nat, observe: nat -> Observation, render: Problem -> Remark)
    requires i <= |specs| && Executed(specs, i, observe, render).Ok?
    ensures IsSequence(specs, i, observe, render, Executed(specs, i, observe, render).value)
  {
    var run := Executed(specs, i, observe, render).value;
    SequenceEnds(specs, i, observe, render);
    forall k | 0 <= k < |run|
      ensures IsControl(specs, i + k, observe, render, run[k])
    {
      SequenceAt(specs, i, observe, render, k);
    }
    forall k | 0 <= k < |run| - 1
      ensures !Stops(specs[i + k], run[k])
    {
      SequenceAt(specs, i, observe, render, k);
    }
  }

  lemma {:induction false} SequenceEnds(
    specs: seq<ControlSpec>, i: nat, observe: nat -> Observation, render: Problem -> Remark)
    requires i <= |specs| && Executed(specs, i, observe, render).Ok?
    ensures
      var run := Executed(specs, i, observe, render).value;
      && i + |run| <= |specs|
      && (i + |run| < |specs| ==> run != [] && Stops(specs[i + |run| - 1], run[|run| - 1]))
    decreases |specs| - i
  {
    if i < |specs| {
      var c := ControlOf(specs[i], observe(i), render).value;
      if !Stops(specs[i], c) {
        SequenceEnds(specs, i + 1, observe, render);
        var rest := Executed(specs, i + 1, observe, render).value;
        var run := Executed(specs, i, observe, render).value;
        assert run == [c] + rest && i + |run| == i + 1 + |rest|;
        if rest != [] { assert run[|run| - 1] == rest[|rest| - 1]; }
      }
    }
  }

  lemma {:induction false} SequenceAt(
    specs: seq<ControlSpec>, i: nat, observe: nat -> Observation, render: Problem -> Remark, k: nat)
    requires i <= |specs| && Executed(specs, i, observe, render).Ok?
    requires k < |Executed(specs, i, observe, render).value|
    ensures
      var run := Executed(specs, i, observe, render).value;
      && IsControl(specs, i + k, observe, render, run[k])
      && (k < |run| - 1 ==> !Stops(specs[i + k], run[k]))
    decreases |specs| - i
  {
    var c := ControlOf(specs[i], observe(i), render).value;
    if !Stops(specs[i], c) {
      var rest := Executed(specs, i + 1, observe, render).value;
      assert Executed(specs, i, observe, render).value == [c] + rest;
      if k > 0 { SequenceAt(specs, i + 1, observe, render, k - 1); }
    }
  }
}
