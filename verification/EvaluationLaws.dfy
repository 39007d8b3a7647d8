/** The result of the gate, stated outright: the controls it lists, its metrics, its decision,
    and what happens to a candidate that could not be rebuilt or is out of scope. */
module EvaluationLaws {
  import opened Prelude
  import opened GateModel
  import opened GateControls
  import opened GatePolicy
  import opened GateEvaluation
  import GateDecisions

  /** Rebuilt and in scope: the builtin controls passed. */
  predicate StartsPassed(controls: seq<Control>, changedFiles: nat) {
    && |controls| >= 2
    && controls[0] == Control("candidate-integrity", Passed, Mandatory,
                              [Metric("changed_files", Finite(changedFiles as real))], [])
    && controls[1] == Control("change-scope", Passed, Mandatory,
                              [Metric("changed_files", Finite(changedFiles as real)),
                               Metric("scope_violations", Finite(0.0))], [])
  }

  /** `run` is the configured controls as observed, in order, up to the first that failed or
      errored and does not let the sequence continue. */
  ghost predicate RunsUntilStopped(
    specs: seq<ControlSpec>, observe: nat -> Observation, render: Problem -> Remark, run: seq<Control>)
  {
    && |run| <= |specs|
    && (forall k :: 0 <= k < |run| ==> IsControl(specs, k, observe, render, run[k]))
    && (forall k :: 0 <= k < |run| - 1 ==>
          (run[k].status != Failed && run[k].status != Error) || specs[k].continueAfterFailure)
    && (|run| < |specs| ==>
          && |run| > 0 && !specs[|run| - 1].continueAfterFailure
          && (run[|run| - 1].status == Failed || run[|run| - 1].status == Error))
  }

  /** No two of the controls' metrics share a qualified name, and all are finite. */
  ghost predicate OneNamespace(controls: seq<Control>) {
    && (forall c, m :: c in controls && m in c.metrics ==> m.value.Finite?)
    && (forall i, j, a, b :: 0 <= i < |controls| && 0 <= j < |controls|
          && 0 <= a < |controls[i].metrics| && 0 <= b < |controls[j].metrics| && (i, a) != (j, b)
          ==> controls[i].id + "." + controls[i].metrics[a].name != controls[j].id + "." + controls[j].metrics[b].name)
  }

  /** The mapping holds the controls' metrics under their qualified names, and no others. */
  ghost predicate HoldsMetrics(metrics: map<string, Number>, controls: seq<Control>) {
    && (forall c, m :: c in controls && m in c.metrics ==>
          c.id + "." + m.name in metrics && metrics[c.id + "." + m.name] == m.value)
    && (forall name :: name in metrics ==>
          exists c, m :: c in controls && m in c.metrics && c.id + "." + m.name == name)
  }

  // ----- The namespace -----------------------------------------------------------------

  lemma MapsHoldsMetrics(metrics: map<string, Number>, controls: seq<Control>)
    requires Maps(metrics, Flat(controls))
    ensures HoldsMetrics(metrics, controls)
  {
    var flat := Flat(controls);
    forall c, m | c in controls && m in c.metrics
      ensures c.id + "." + m.name in metrics && metrics[c.id + "." + m.name] == m.value
    {
      var x := Metric(c.id + "." + m.name, m.value);
      FlatIs(controls, x);
      var i :| 0 <= i < |flat| && flat[i] == x;
    }
    forall name | name in metrics
      ensures exists c, m :: c in controls && m in c.metrics && c.id + "." + m.name == name
    {
      var i :| 0 <= i < |flat| && flat[i].name == name;
      FlatIs(controls, flat[i]);
    }
  }

  /** Where the metrics of control `i` start in the list of all. */
  function Start(controls: seq<Control>, i: nat): nat
    requires i <= |controls|
  {
    |Flat(controls[..i])|
  }

  lemma {:induction false} FlatAt(controls: seq<Control>, i: nat, a: nat)
    requires i < |controls| && a < |controls[i].metrics|
    ensures Start(controls, i) + a < |Flat(controls)|
    ensures
      var m := controls[i].metrics[a];
      Flat(controls)[Start(controls, i) + a] == Metric(controls[i].id + "." + m.name, m.value)
    decreases |controls|
  {
    var front := controls[..|controls| - 1];
    if i < |front| {
      FlatAt(front, i, a);
      assert front[..i] == controls[..i];
    } else {
      assert controls[..i] == front;
    }
  }

  lemma {:induction false} FlatComesFrom(controls: seq<Control>, k: nat) returns (i: nat, a: nat)
    requires k < |Flat(controls)|
    ensures i < |controls| && a < |controls[i].metrics| && k == Start(controls, i) + a
    decreases |controls|
  {
    var front := controls[..|controls| - 1];
    if k < |Flat(front)| {
      i, a := FlatComesFrom(front, k);
      assert front[..i] == controls[..i];
    } else {
      i, a := |front|, k - |Flat(front)|;
      assert controls[..i] == front;
    }
  }

  lemma StartsDiffer(controls: seq<Control>, i: nat, a: nat, j: nat, b: nat)
    requires i < |controls| && j < |controls| && a < |controls[i].metrics| && b < |controls[j].metrics|
    requires (i, a) != (j, b)
    ensures Start(controls, i) + a != Start(controls, j) + b
  {
    if i < j { StartsRise(controls, i, j); }
    if j < i { StartsRise(controls, j, i); }
  }

  lemma {:induction false} StartsRise(controls: seq<Control>, i: nat, j: nat)
    requires i < j <= |controls|
    ensures Start(controls, i) + |controls[i].metrics| <= Start(controls, j)
    decreases j
  {
    assert controls[..j][..j - 1] == controls[..j - 1];
    if i < j - 1 { StartsRise(controls, i, j - 1); }
  }

  /** The namespace can be built exactly when no two metrics clash and all are finite. */
  lemma NormalizableMeans(controls: seq<Control>)
    ensures Normalizable(Flat(controls)) <==> OneNamespace(controls)
  {
    if Normalizable(Flat(controls)) { NormalizedIsOneNamespace(controls); }
    if OneNamespace(controls) { OneNamespaceNormalizes(controls); }
  }

  lemma NormalizedIsOneNamespace(controls: seq<Control>)
    requires Normalizable(Flat(controls))
    ensures OneNamespace(controls)
  {
    forall c, m | c in controls && m in c.metrics
      ensures m.value.Finite?
    {
      FlatIs(controls, Metric(c.id + "." + m.name, m.value));
    }
    forall i, j, a, b | 0 <= i < |controls| && 0 <= j < |controls|
      && 0 <= a < |controls[i].metrics| && 0 <= b < |controls[j].metrics| && (i, a) != (j, b)
      ensures controls[i].id + "." + controls[i].metrics[a].name != controls[j].id + "." + controls[j].metrics[b].name
    {
      FlatAt(controls, i, a);
      FlatAt(controls, j, b);
      StartsDiffer(controls, i, a, j, b);
      var x, y := Start(controls, i) + a, Start(controls, j) + b;
      assert if x < y then Flat(controls)[x].name != Flat(controls)[y].name
             else Flat(controls)[y].name != Flat(controls)[x].name;
    }
  }

  lemma OneNamespaceNormalizes(controls: seq<Control>)
    requires OneNamespace(controls)
    ensures Normalizable(Flat(controls))
  {
    var flat := Flat(controls);
    forall x | 0 <= x < |flat|
      ensures flat[x].value.Finite?
    {
      FlatIs(controls, flat[x]);
    }
    forall x, y | 0 <= x < y < |flat|
      ensures flat[x].name != flat[y].name
    {
      var i, a := FlatComesFrom(controls, x);
      var j, b := FlatComesFrom(controls, y);
      FlatAt(controls, i, a);
      FlatAt(controls, j, b);
    }
  }

  // ----- The control sequence ------------------------------------------------------------

  lemma ExecutedMeans(specs: seq<ControlSpec>, observe: nat -> Observation, render: Problem -> Remark)
    requires Executed(specs, 0, observe, render).Ok?
    ensures RunsUntilStopped(specs, observe, render, Executed(specs, 0, observe, render).value)
  {
    SequenceIsPrefix(specs, 0, observe, render);
    var run := Executed(specs, 0, observe, render).value;
    forall k | 0 <= k < |run|
      ensures IsControl(specs, k, observe, render, run[k])
    {
      assert IsControl(specs, 0 + k, observe, render, run[k]);
    }
    forall k | 0 <= k < |run| - 1
      ensures (run[k].status != Failed && run[k].status != Error) || specs[k].continueAfterFailure
    {
      assert !Stops(specs[0 + k], run[k]);
    }
  }

  // ----- The result ------------------------------------------------------------------------

  /** The result lists the controls that ran; or, if their metrics clash, these and a failed
      one that says so, with the metrics of the controls that do not bear its name. */
  ghost predicate Lists(r: GateResult, ran: seq<Control>, summary: Remark) {
    if OneNamespace(ran) then r.controls == ran && HoldsMetrics(r.metrics, ran)
    else
      && r.controls == ran + [Control("evidence-normalization", Failed, Mandatory,
                                      [Metric("normalization_failure", Finite(1.0))], [summary])]
      && exists kept :: KeepsOthers(kept, ran) && OneNamespace(kept) && HoldsMetrics(r.metrics, kept)
  }

  ghost predicate KeepsOthers(kept: seq<Control>, ran: seq<Control>) {
    forall c :: c in kept <==> c in ran && c.id != "evidence-normalization"
  }

  lemma ConclusionLists(ran: seq<Control>, policy: Policy, summary: Remark, r: Result<GateResult, GateError>)
    requires Concludes(ran, policy, summary, r) && r.Ok?
    ensures Lists(r.value, ran, summary)
    ensures r.value.decision == Decided(r.value.controls, r.value.metrics, policy)
    ensures GateDecisions.Accepted(r.value.controls, r.value.decision)
  {
    NormalizableMeans(ran);
    if Normalizable(Flat(ran)) {
      MapsHoldsMetrics(r.value.metrics, ran);
    } else {
      var kept := Remaining(ran);
      assert KeepsOthers(kept, ran);
      NormalizableMeans(kept);
      MapsHoldsMetrics(r.value.metrics, kept);
    }
  }

  /** A candidate in scope: the passed builtin controls, the configured controls until one
      stops the sequence, the metrics of all, and the policy's decision on them. */
  lemma ResultInScope(
    prep: Preparation, specs: seq<ControlSpec>, observe: nat -> Observation, render: Problem -> Remark,
    policy: Policy, summary: Remark, r: Result<GateResult, GateError>)
    requires Evaluated(prep, specs, observe, render, policy, summary, r) && prep.InScope? && r.Ok?
    ensures exists ran ::
      && StartsPassed(ran, prep.changedFiles) && RunsUntilStopped(specs, observe, render, ran[2..])
      && Lists(r.value, ran, summary)
    ensures r.value.decision == Decided(r.value.controls, r.value.metrics, policy)
  {
    var run := Executed(specs, 0, observe, render).value;
    var ran := Builtins(prep) + run;
    ExecutedMeans(specs, observe, render);
    assert ran[2..] == run;
    ConclusionLists(ran, policy, summary, r);
  }

  /** What is listed for a candidate that was not rebuilt, not checked, or out of scope. */
  predicate ListsRefusal(prep: Preparation, r: GateResult) {
    match prep
    case NotReconstructed(why) =>
      && r.controls == [Control("candidate-integrity", Failed, DominantFailure,
                                [Metric("candidate_integrity_failure", Finite(1.0))], [why])]
      && r.metrics == map["candidate-integrity.candidate_integrity_failure" := Finite(1.0)]
    case ScopeNotChecked(n, why) =>
      && r.controls == [Control("candidate-integrity", Passed, Mandatory, [Metric("changed_files", Finite(n as real))], []),
                        Control("candidate-integrity", Failed, DominantFailure,
                                [Metric("candidate_integrity_failure", Finite(1.0))], [why])]
      && r.metrics == map["candidate-integrity.changed_files" := Finite(n as real),
                          "candidate-integrity.candidate_integrity_failure" := Finite(1.0)]
    case OutOfScope(n, why) =>
      && r.controls == [Control("candidate-integrity", Passed, Mandatory, [Metric("changed_files", Finite(n as real))], []),
                        Control("change-scope", Failed, DominantFailure, [Metric("scope_violations", Finite(1.0))], [why])]
      && r.metrics == map["candidate-integrity.changed_files" := Finite(n as real),
                          "change-scope.scope_violations" := Finite(1.0)]
    case InScope(_) => false
  }

  /** Such a candidate is never run: the result lists the refusal alone and decides FAIL. It
      exists whenever the policy fails dominant controls. */
  lemma RefusedCandidateFails(
    prep: Preparation, specs: seq<ControlSpec>, observe: nat -> Observation, render: Problem -> Remark,
    policy: Policy, summary: Remark, r: Result<GateResult, GateError>)
    requires Evaluated(prep, specs, observe, render, policy, summary, r) && !prep.InScope? && ValidPolicy(policy)
    ensures r.Ok? ==> ListsRefusal(prep, r.value) && r.value.decision.decision == Fail
    ensures r.Err? ==> r == Err(ResultRejected) && !policy.failOnDominant
  {
    var builtins := Builtins(prep);
    BuiltinsFail(prep);
    BuiltinsNormalize(prep);
    var metrics :| Maps(metrics, Flat(builtins)) && r == Judged(builtins, metrics, policy);
    GateDecisions.AcceptedExactlyWhen(builtins, metrics, policy);
    if policy.failOnDominant { DominantFailureFails(builtins, metrics, policy); }
    RefusalMetrics(prep, metrics, Decided(builtins, metrics, policy));
  }

  lemma DominantFailureFails(controls: seq<Control>, metrics: map<string, Number>, policy: Policy)
    requires policy.failOnDominant && DominantFailurePresent(controls)
    ensures Decided(controls, metrics, policy).decision == Fail
  {
    var c :| c in controls && c.severity.DominantFailure? && Failing(c.status);
    GateDecisions.FailingControlFails(controls, metrics, policy, c);
  }

  lemma BuiltinsAreListed(prep: Preparation)
    requires !prep.InScope?
    ensures Flat(Builtins(prep)) ==
      match prep
      case NotReconstructed(_) => [Metric("candidate-integrity.candidate_integrity_failure", Finite(1.0))]
      case ScopeNotChecked(n, _) =>
        [Metric("candidate-integrity.changed_files", Finite(n as real)),
         Metric("candidate-integrity.candidate_integrity_failure", Finite(1.0))]
      case OutOfScope(n, _) =>
        [Metric("candidate-integrity.changed_files", Finite(n as real)),
         Metric("change-scope.scope_violations", Finite(1.0))]
      case InScope(_) => []
  {
    Spelled();
    match prep {
      case NotReconstructed(why) => FlatOfOne(Uncertain(why));
      case ScopeNotChecked(n, why) => FlatOfTwo(Intact(n), Uncertain(why));
      case OutOfScope(n, why) => FlatOfTwo(Intact(n), Unauthorized(why));
    }
  }

  lemma Spelled()
    ensures Qualified(INTEGRITY, "candidate_integrity_failure") == "candidate-integrity.candidate_integrity_failure"
    ensures Qualified(INTEGRITY, "changed_files") == "candidate-integrity.changed_files"
    ensures Qualified(SCOPE, "scope_violations") == "change-scope.scope_violations"
  {
    assert INTEGRITY + "." == "candidate-integrity." && SCOPE + "." == "change-scope.";
  }

  lemma FlatOfOne(c: Control)
    requires |c.metrics| == 1
    ensures Flat([c]) == [Metric(Qualified(c.id, c.metrics[0].name), c.metrics[0].value)]
  {
    assert [c][..0] == [];
  }

  lemma FlatOfTwo(c: Control, d: Control)
    requires |c.metrics| == 1 && |d.metrics| == 1
    ensures Flat([c, d]) == [Metric(Qualified(c.id, c.metrics[0].name), c.metrics[0].value),
                             Metric(Qualified(d.id, d.metrics[0].name), d.metrics[0].value)]
  {
    FlatOfOne(c);
    assert [c, d][..1] == [c];
  }

  lemma NamesDiffer()
    ensures "candidate-integrity.changed_files" != "candidate-integrity.candidate_integrity_failure"
    ensures "candidate-integrity.changed_files" != "change-scope.scope_violations"
  {
    assert "candidate-integrity.changed_files"[21] != "candidate-integrity.candidate_integrity_failure"[21];
    assert "candidate-integrity.changed_files"[1] != "change-scope.scope_violations"[1];
  }

  lemma BuiltinsNormalize(prep: Preparation)
    requires !prep.InScope?
    ensures Normalizable(Flat(Builtins(prep)))
  {
    BuiltinsAreListed(prep);
    NamesDiffer();
  }

  lemma RefusalMetrics(prep: Preparation, metrics: map<string, Number>, d: PolicyDecision)
    requires !prep.InScope? && Maps(metrics, Flat(Builtins(prep)))
    ensures ListsRefusal(prep, GateResult(Builtins(prep), metrics, d))
  {
    BuiltinsAreListed(prep);
    NamesDiffer();
    var flat := Flat(Builtins(prep));
    match prep {
      case NotReconstructed(_) =>
        MapsIsUnique(metrics, map[flat[0].name := flat[0].value], flat);
      case ScopeNotChecked(_, _) =>
        MapsIsUnique(metrics, map[flat[0].name := flat[0].value, flat[1].name := flat[1].value], flat);
      case OutOfScope(_, _) =>
        MapsIsUnique(metrics, map[flat[0].name := flat[0].value, flat[1].name := flat[1].value], flat);
    }
  }
}
