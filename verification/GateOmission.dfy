/** Which configured controls a PASS can leave out. */
module GateOmission {
  import opened Prelude
  import opened GateModel
  import opened GateControls
  import opened GatePolicy
  import opened GateEvaluation
  import opened GatePass

  // ----- Which controls a PASS can leave out ------------------------------------------

  /** The gate passes although a configured control never ran. */
  ghost predicate PassOmits(
    prep: Preparation, specs: seq<ControlSpec>, observe: nat -> Observation, render: Problem -> Remark,
    p: Policy, summary: Remark, r: Result<GateResult, GateError>)
  {
    && Evaluated(prep, specs, observe, render, p, summary, r) && IsPass(r)
    && |r.value.controls| < |specs| + 2
  }

  /** Control `k` has others behind it, may stop the sequence and fail without
      consequence, and no control before it is of dominant severity. */
  predicate CanHideControls(specs: seq<ControlSpec>, p: Policy, k: nat) {
    && k + 1 < |specs| && !specs[k].continueAfterFailure && Ignored(specs[k].severity, p)
    && forall j :: 0 <= j < k ==> !specs[j].severity.DominantFailure?
  }

  lemma OmissionNeedsHiding(
    prep: Preparation, specs: seq<ControlSpec>, observe: nat -> Observation, render: Problem -> Remark,
    p: Policy, summary: Remark, r: Result<GateResult, GateError>)
    requires ValidPolicy(p) && PassOmits(prep, specs, observe, render, p, summary, r)
    ensures |r.value.controls| > 2 && CanHideControls(specs, p, |r.value.controls| - 3)
  {
    PassMeansControlsPassed(prep, specs, observe, render, p, summary, r);
    StoppedRunHides(specs, observe, render, p, r.value.controls[2..]);
  }

  lemma StoppedRunHides(
    specs: seq<ControlSpec>, observe: nat -> Observation, render: Problem -> Remark, p: Policy, run: seq<Control>)
    requires |run| < |specs| && RunPassed(specs, observe, render, p, run)
    ensures run != [] && CanHideControls(specs, p, |run| - 1)
  {
    forall j | 0 <= j < |run| - 1
      ensures !specs[j].severity.DominantFailure?
    {
      assert PassedAt(specs, j, observe, render, p, run[j]);
    }
  }

  /** The rules of the evaluation specification. */
  predicate ValidSpecs(specs: seq<ControlSpec>) {
    && (forall i :: 0 <= i < |specs| ==> specs[i].expectedExitCodes != [])
    && forall i, j :: 0 <= i < j < |specs| ==> specs[i].id != specs[j].id
  }

  /** The controls before `k` pass, bringing nothing but the command's own metrics, and
      the command of `k` times out. */
  function Hiding(specs: seq<ControlSpec>, k: nat): nat -> Observation {
    (i: nat) => Observation(
      InsideRepository,
      if i < k && i < |specs| then Ordinary(specs[i]) else TimedOut,
      j => Parsed([]),
      Clean)
  }

  function Ordinary(spec: ControlSpec): Command {
    if spec.expectedExitCodes == [] then TimedOut else Completed(spec.expectedExitCodes[0], Finite(0.0), false)
  }

  /** The metrics of a command, or of a timeout. */
  predicate Plain(metrics: seq<Metric>) {
    && (forall i, j :: 0 <= i < j < |metrics| ==> metrics[i].name != metrics[j].name)
    && forall m :: m in metrics ==> m.value.Finite? && '.' !in m.name
  }

  /** Controls whose metrics have no dots in their names share one namespace when no two of
      them have both their id and a metric name in common. */
  predicate Apart(c: Control, d: Control) {
    c.id != d.id || forall m, n :: m in c.metrics && n in d.metrics ==> m.name != n.name
  }

  lemma QualifiedIsInjective(a: string, m: string, b: string, n: string)
    requires '.' !in m && '.' !in n && Qualified(a, m) == Qualified(b, n)
    ensures a == b && m == n
  {
    var s := Qualified(a, m);
    assert s[|a|] == '.' && s[|b|] == '.';
    assert forall k :: |a| < k < |s| ==> s[k] == m[k - |a| - 1];
    assert forall k :: |b| < k < |s| ==> s[k] == n[k - |b| - 1];
    assert |a| == |b|;
    assert s[..|a|] == a && s[..|b|] == b && s[|a| + 1..] == m && s[|b| + 1..] == n;
  }

  lemma {:induction false} FlatSource(controls: seq<Control>, x: Metric) returns (i: nat, m: Metric)
    requires x in Flat(controls)
    ensures i < |controls| && m in controls[i].metrics && x == Metric(Qualified(controls[i].id, m.name), m.value)
  {
    var front, last := controls[..|controls| - 1], controls[|controls| - 1];
    if x in Flat(front) {
      i, m := FlatSource(front, x);
    } else {
      var k :| 0 <= k < |last.metrics| && Namespace(last.id, last.metrics)[k] == x;
      i, m := |controls| - 1, last.metrics[k];
    }
  }

  lemma {:induction false} PlainControlsNormalize(controls: seq<Control>)
    requires forall c :: c in controls ==> Plain(c.metrics)
    requires forall i, j :: 0 <= i < j < |controls| ==> Apart(controls[i], controls[j])
    ensures Normalizable(Flat(controls))
    decreases |controls|
  {
    if controls != [] {
      var front, last := controls[..|controls| - 1], controls[|controls| - 1];
      PlainControlsNormalize(front);
      forall x, y | x in Flat(front) && y in Namespace(last.id, last.metrics)
        ensures x.name != y.name
      {
        var i, m := FlatSource(front, x);
        var k :| 0 <= k < |last.metrics| && Namespace(last.id, last.metrics)[k] == y;
        assert Apart(controls[i], last) && front[i] in controls;
        if x.name == y.name { QualifiedIsInjective(front[i].id, m.name, last.id, last.metrics[k].name); }
      }
      NamespaceNormalizes(last.id, last.metrics);
      NormalizableTogether(Flat(front), Namespace(last.id, last.metrics));
    }
  }

  lemma NamespaceNormalizes(id: string, metrics: seq<Metric>)
    requires Plain(metrics)
    ensures Normalizable(Namespace(id, metrics))
  {
    forall i, j | 0 <= i < j < |metrics|
      ensures Qualified(id, metrics[i].name) != Qualified(id, metrics[j].name)
    {
      if Qualified(id, metrics[i].name) == Qualified(id, metrics[j].name) {
        QualifiedIsInjective(id, metrics[i].name, id, metrics[j].name);
      }
    }
  }

  lemma NormalizableTogether(flat: seq<Metric>, more: seq<Metric>)
    requires Normalizable(flat) && Normalizable(more)
    requires forall x, y :: x in flat && y in more ==> x.name != y.name
    ensures Normalizable(flat + more)
  {}

  /** The metrics of a normalizable list form a mapping. */
  lemma {:induction false} MapExists(flat: seq<Metric>) returns (m: map<string, Number>)
    requires Normalizable(flat)
    ensures Maps(m, flat)
  {
    if flat == [] {
      m := map[];
    } else {
      var n := |flat| - 1;
      NormalizablePrefix(flat[..n], flat);
      m := MapExists(flat[..n]);
      assert flat == flat[..n] + [flat[n]];
      MapsThen(m, flat[..n], flat[n]);
      m := m[flat[n].name := flat[n].value];
    }
  }

  /** The specification always admits a result. */
  lemma SomethingIsEvaluated(
    prep: Preparation, specs: seq<ControlSpec>, observe: nat -> Observation, render: Problem -> Remark,
    p: Policy, summary: Remark) returns (r: Result<GateResult, GateError>)
    ensures Evaluated(prep, specs, observe, render, p, summary, r)
  {
    var run := Executed(specs, 0, observe, render);
    if prep.InScope? && run.Err? { return Err(run.error); }
    r := SomethingIsConcluded(if prep.InScope? then Builtins(prep) + run.value else Builtins(prep), p, summary);
  }

  lemma SomethingIsConcluded(controls: seq<Control>, p: Policy, summary: Remark)
    returns (r: Result<GateResult, GateError>)
    ensures Concludes(controls, p, summary, r)
  {
    if Normalizable(Flat(controls)) {
      var m := MapExists(Flat(controls));
      r := Judged(controls, m, p);
    } else if Normalizable(Flat(Remaining(controls))) {
      var m := MapExists(Flat(Remaining(controls)));
      r := Judged(controls + [NormalizationFailure(summary)], m, p);
    } else {
      r := Err(NotNormalizable);
    }
  }

  // ----- A run that hides controls ------------------------------------------------

  /** What the hiding environment makes of the controls up to `k`. */
  predicate HiddenAs(spec: ControlSpec, c: Control, last: bool)
    requires spec.expectedExitCodes != []
  {
    && c.id == spec.id && c.severity == spec.severity
    && c.status == (if last then Error else Passed)
    && c.metrics == (if last then [Metric("timed_out", Finite(1.0))]
                     else [Metric("exit_code", Finite(spec.expectedExitCodes[0] as real)),
                           Metric("duration_seconds", Finite(0.0)), Metric("output_truncated", Finite(0.0))])
  }

  lemma {:induction false} EmptyReports(spec: ControlSpec, o: Observation, n: nat)
    requires o.command.Completed? && n <= |spec.reports| && forall j: nat :: o.report(j) == Parsed([])
    ensures Reports(spec, o, n) == Gathered(CommandMetrics(o.command), [], [])
  {
    if n > 0 { EmptyReports(spec, o, n - 1); }
  }

  lemma HiddenControl(specs: seq<ControlSpec>, k: nat, i: nat, render: Problem -> Remark)
    requires i <= k < |specs| && ValidSpecs(specs) && (i < k ==> !specs[i].severity.DominantFailure?)
    ensures
      var c := ControlOf(specs[i], Hiding(specs, k)(i), render);
      c.Ok? && HiddenAs(specs[i], c.value, i == k)
  {
    var o := Hiding(specs, k)(i);
    UsableNames();
    if i < k {
      assert specs[i].expectedExitCodes != [];
      EmptyReports(specs[i], o, |specs[i].reports|);
    }
  }

  lemma UsableNames()
    ensures !Blank("timed_out") && !Blank("exit_code") && !Blank("duration_seconds") && !Blank("output_truncated")
  {
    assert 't' in "timed_out" && 'e' in "exit_code" && 'd' in "duration_seconds" && 'o' in "output_truncated";
  }

  /** The sequence runs up to `k` and stops there. */
  lemma HiddenSequence(specs: seq<ControlSpec>, k: nat, render: Problem -> Remark)
    requires ValidSpecs(specs) && k < |specs| && !specs[k].continueAfterFailure
    requires forall j :: 0 <= j < k ==> !specs[j].severity.DominantFailure?
    ensures
      var run := Executed(specs, 0, Hiding(specs, k), render);
      && run.Ok? && |run.value| == k + 1
      && forall i :: 0 <= i <= k ==> HiddenAs(specs[i], run.value[i], i == k)
  {
    var observe := Hiding(specs, k);
    forall i | 0 <= i <= k
      ensures ControlOf(specs[i], observe(i), render).Ok?
      ensures HiddenAs(specs[i], ControlOf(specs[i], observe(i), render).value, i == k)
      ensures GoesOn(specs[i], observe(i), render) <==> i < k
    {
      HiddenControl(specs, k, i, render);
    }
    SequenceStopsAt(specs, 0, k, observe, render);
    assert forall i :: 0 <= i <= k ==> IsControl(specs, 0 + i, observe, render, Executed(specs, 0, observe, render).value[i]);
  }

  lemma {:induction false} SequenceStopsAt(
    specs: seq<ControlSpec>, i: nat, k: nat, observe: nat -> Observation, render: Problem -> Remark)
    requires Reached(specs, i, k, observe, render) && ControlOf(specs[k], observe(k), render).Ok?
    requires !GoesOn(specs[k], observe(k), render)
    ensures
      var run := Executed(specs, i, observe, render);
      && run.Ok? && |run.value| == k - i + 1
      && forall j :: 0 <= j <= k - i ==> IsControl(specs, i + j, observe, render, run.value[j])
    decreases k - i
  {
    if i < k {
      assert GoesOn(specs[i], observe(i), render);
      SequenceStopsAt(specs, i + 1, k, observe, render);
      var rest := Executed(specs, i + 1, observe, render).value;
      var run := Executed(specs, i, observe, render).value;
      assert run == [ControlOf(specs[i], observe(i), render).value] + rest;
      forall j | 0 <= j <= k - i
        ensures IsControl(specs, i + j, observe, render, run[j])
      {
        if j > 0 { assert IsControl(specs, i + 1 + (j - 1), observe, render, rest[j - 1]); }
      }
    }
  }

  const BUILTIN_NAMES: set<string> := {"changed_files", "scope_violations"}

  const COMMAND_NAMES: set<string> := {"exit_code", "duration_seconds", "output_truncated", "timed_out"}

  predicate NamedIn(c: Control, names: set<string>) {
    Plain(c.metrics) && forall m :: m in c.metrics ==> m.name in names
  }

  /** The names the gate itself gives are different and have no dots. */
  lemma UsualNames()
    ensures BUILTIN_NAMES !! COMMAND_NAMES
    ensures forall name :: name in BUILTIN_NAMES + COMMAND_NAMES ==> '.' !in name
    ensures Distinct(["exit_code", "duration_seconds", "output_truncated"]) && "changed_files" != "scope_violations"
  {
    assert "exit_code"[0] == 'e' && "duration_seconds"[0] == 'd' && "output_truncated"[0] == 'o';
    assert "timed_out"[0] == 't' && "changed_files"[0] == 'c' && "scope_violations"[0] == 's';
  }

  lemma HiddenNames(spec: ControlSpec, c: Control, last: bool)
    requires spec.expectedExitCodes != [] && HiddenAs(spec, c, last)
    ensures NamedIn(c, COMMAND_NAMES)
  {
    UsualNames();
    if !last {
      var names := ["exit_code", "duration_seconds", "output_truncated"];
      assert forall i :: 0 <= i < 3 ==> c.metrics[i].name == names[i];
    }
  }

  lemma BuiltinNames()
    ensures
      var builtins := Builtins(InScope(0));
      && (forall i, j :: 0 <= i < j < |builtins| ==> builtins[i].id != builtins[j].id)
      && forall c :: c in builtins ==> NamedIn(c, BUILTIN_NAMES)
  {
    UsualNames();
    assert |INTEGRITY| != |SCOPE|;
  }

  lemma NamedApart(c: Control, d: Control, some: set<string>, others: set<string>)
    requires NamedIn(c, some) && NamedIn(d, others) && some !! others
    ensures Apart(c, d)
  {}

  lemma HiddenRunNames(specs: seq<ControlSpec>, k: nat, run: seq<Control>)
    requires ValidSpecs(specs) && |run| == k + 1 <= |specs|
    requires forall i :: 0 <= i <= k ==> HiddenAs(specs[i], run[i], i == k)
    ensures forall c :: c in run ==> NamedIn(c, COMMAND_NAMES)
    ensures forall i, j :: 0 <= i < j < |run| ==> run[i].id != run[j].id
  {
    forall c | c in run
      ensures NamedIn(c, COMMAND_NAMES)
    {
      var i :| 0 <= i < |run| && run[i] == c;
      HiddenNames(specs[i], c, i == k);
    }
    assert forall i :: 0 <= i < |run| ==> run[i].id == specs[i].id;
  }

  lemma HiddenControlsNormalize(specs: seq<ControlSpec>, k: nat, run: seq<Control>)
    requires ValidSpecs(specs) && |run| == k + 1 <= |specs|
    requires forall i :: 0 <= i <= k ==> HiddenAs(specs[i], run[i], i == k)
    ensures Normalizable(Flat(Builtins(InScope(0)) + run))
  {
    HiddenRunNames(specs, k, run);
    BuiltinNames();
    NormalizesAfter(Builtins(InScope(0)), run);
  }

  lemma NormalizesAfter(builtins: seq<Control>, run: seq<Control>)
    requires forall i, j :: 0 <= i < j < |builtins| ==> builtins[i].id != builtins[j].id
    requires forall i, j :: 0 <= i < j < |run| ==> run[i].id != run[j].id
    requires forall c :: c in builtins ==> NamedIn(c, BUILTIN_NAMES)
    requires forall c :: c in run ==> NamedIn(c, COMMAND_NAMES)
    ensures Normalizable(Flat(builtins + run))
  {
    UsualNames();
    forall c, d | c in builtins && d in run
      ensures Apart(c, d)
    {
      NamedApart(c, d, BUILTIN_NAMES, COMMAND_NAMES);
    }
    AllApart(builtins, run);
    assert forall c :: c in builtins + run ==> c in builtins || c in run;
    PlainControlsNormalize(builtins + run);
  }

  lemma AllApart(some: seq<Control>, others: seq<Control>)
    requires forall i, j :: 0 <= i < j < |some| ==> some[i].id != some[j].id
    requires forall i, j :: 0 <= i < j < |others| ==> others[i].id != others[j].id
    requires forall c, d :: c in some && d in others ==> Apart(c, d)
    ensures
      var all := some + others;
      forall i, j :: 0 <= i < j < |all| ==> Apart(all[i], all[j])
  {
    var all := some + others;
    forall i, j | 0 <= i < j < |all|
      ensures Apart(all[i], all[j])
    {
      if i < |some| <= j { assert all[i] == some[i] && all[j] == others[j - |some|]; }
    }
  }

  /** Nothing is in the way of a PASS after such a run. */
  lemma HiddenRunPasses(specs: seq<ControlSpec>, p: Policy, k: nat, run: seq<Control>)
    requires ValidSpecs(specs) && |run| == k + 1 <= |specs|
    requires p.thresholds == [] && Ignored(specs[k].severity, p)
    requires forall i :: 0 <= i <= k ==> HiddenAs(specs[i], run[i], i == k)
    ensures NothingInTheWay(Builtins(InScope(0)) + run, p)
  {
    HiddenControlsNormalize(specs, k, run);
    forall c | c in Builtins(InScope(0)) + run
      ensures Quiet(c, p)
    {
      if c in run { var i :| 0 <= i < |run| && run[i] == c; }
    }
  }

  /** Such a control can hide the ones behind it from a policy without thresholds. */
  lemma HidingPasses(specs: seq<ControlSpec>, p: Policy, k: nat, render: Problem -> Remark, summary: Remark)
    returns (r: Result<GateResult, GateError>)
    requires ValidSpecs(specs) && ValidPolicy(p) && p.thresholds == [] && CanHideControls(specs, p, k)
    ensures PassOmits(InScope(0), specs, Hiding(specs, k), render, p, summary, r)
  {
    var observe := Hiding(specs, k);
    r := SomethingIsEvaluated(InScope(0), specs, observe, render, p, summary);
    HiddenSequence(specs, k, render);
    HiddenRunPasses(specs, p, k, Executed(specs, 0, observe, render).value);
    PassesExactlyWhen(InScope(0), specs, observe, render, p, summary, r);
  }

  ghost predicate PassCanOmit(specs: seq<ControlSpec>, p: Policy) {
    exists prep, observe, render, summary, r :: PassOmits(prep, specs, observe, render, p, summary, r)
  }

  ghost predicate SomeControlCanHide(specs: seq<ControlSpec>, p: Policy) {
    exists k: nat :: CanHideControls(specs, p, k)
  }

  /** A PASS can leave out a configured control only if some control can hide those behind
      it. For a policy without thresholds that is the exact condition. */
  lemma PassCanOmitExactlyWhen(specs: seq<ControlSpec>, p: Policy)
    requires ValidSpecs(specs) && ValidPolicy(p)
    ensures PassCanOmit(specs, p) ==> SomeControlCanHide(specs, p)
    ensures p.thresholds == [] ==> (PassCanOmit(specs, p) <==> SomeControlCanHide(specs, p))
  {
    if PassCanOmit(specs, p) { OmissionShowsHiding(specs, p); }
    if p.thresholds == [] && SomeControlCanHide(specs, p) { HidingCanOmit(specs, p); }
  }

  lemma OmissionShowsHiding(specs: seq<ControlSpec>, p: Policy)
    requires ValidPolicy(p) && PassCanOmit(specs, p)
    ensures SomeControlCanHide(specs, p)
  {
    var prep, observe, render, summary, r :| PassOmits(prep, specs, observe, render, p, summary, r);
    OmissionNeedsHiding(prep, specs, observe, render, p, summary, r);
  }

  lemma HidingCanOmit(specs: seq<ControlSpec>, p: Policy)
    requires ValidSpecs(specs) && ValidPolicy(p) && p.thresholds == [] && SomeControlCanHide(specs, p)
    ensures PassCanOmit(specs, p)
  {
    var k: nat :| CanHideControls(specs, p, k);
    ControlHides(specs, p, k, problem => Remark("reason", "reason"), Remark("reason", "reason"));
  }

  lemma ControlHides(specs: seq<ControlSpec>, p: Policy, k: nat, render: Problem -> Remark, summary: Remark)
    requires ValidSpecs(specs) && ValidPolicy(p) && p.thresholds == [] && CanHideControls(specs, p, k)
    ensures PassCanOmit(specs, p)
  {
    var r := HidingPasses(specs, p, k, render, summary);
    OmissionIsPossible(InScope(0), specs, Hiding(specs, k), render, p, summary, r);
  }

  lemma OmissionIsPossible(
    prep: Preparation, specs: seq<ControlSpec>, observe: nat -> Observation, render: Problem -> Remark,
    p: Policy, summary: Remark, r: Result<GateResult, GateError>)
    requires PassOmits(prep, specs, observe, render, p, summary, r)
    ensures PassCanOmit(specs, p)
  {}

  ghost predicate CanPass(specs: seq<ControlSpec>, p: Policy) {
    exists prep, observe, render, summary, r :: Evaluated(prep, specs, observe, render, p, summary, r) && IsPass(r)
  }

  /** With a control of dominant severity configured, the gate can pass only by hiding it. */
  lemma DominantControlMustBeHidden(specs: seq<ControlSpec>, p: Policy, d: nat)
    requires ValidSpecs(specs) && ValidPolicy(p) && d < |specs| && specs[d].severity.DominantFailure?
    ensures CanPass(specs, p) <==> PassCanOmit(specs, p)
    ensures CanPass(specs, p) ==> SomeControlCanHide(specs, p)
    ensures p.thresholds == [] ==> (CanPass(specs, p) <==> SomeControlCanHide(specs, p))
  {
    if CanPass(specs, p) {
      var prep, observe, render, summary, r :|
        Evaluated(prep, specs, observe, render, p, summary, r) && IsPass(r);
      DominantIsOmitted(specs, p, d, prep, observe, render, summary, r);
    }
    if PassCanOmit(specs, p) { OmissionIsPass(specs, p); }
    PassCanOmitExactlyWhen(specs, p);
  }

  lemma OmissionIsPass(specs: seq<ControlSpec>, p: Policy)
    requires PassCanOmit(specs, p)
    ensures CanPass(specs, p)
  {
    var prep, observe, render, summary, r :| PassOmits(prep, specs, observe, render, p, summary, r);
  }

  lemma DominantIsOmitted(
    specs: seq<ControlSpec>, p: Policy, d: nat, prep: Preparation, observe: nat -> Observation,
    render: Problem -> Remark, summary: Remark, r: Result<GateResult, GateError>)
    requires ValidPolicy(p) && d < |specs| && specs[d].severity.DominantFailure?
    requires Evaluated(prep, specs, observe, render, p, summary, r) && IsPass(r)
    ensures PassCanOmit(specs, p) && |r.value.controls| - 2 <= d
  {
    PassMeansControlsPassed(prep, specs, observe, render, p, summary, r);
    var run := r.value.controls[2..];
    assert d < |run| ==> PassedAt(specs, d, observe, render, p, run[d]);
    OmissionIsPossible(prep, specs, observe, render, p, summary, r);
  }
}
