/** Running one control, stated outright: its status, metrics, reasons and errors, by what its
    environment answers. */
module ControlLaws {
  import opened Prelude
  import opened GateModel
  import opened GateControls

  /** The command ran in the repository. */
  predicate Ran(o: Observation) { o.directory == InsideRepository && o.command.Completed? }

  /** No report is a problem: each was parsed, or is optional and was not produced or could not
      be parsed; and no name is reported twice. */
  predicate ReportsAreFine(spec: ControlSpec, o: Observation)
    requires o.command.Completed?
  {
    && (forall k :: 0 <= k < |spec.reports| ==>
          || o.report(k).Parsed?
          || (!spec.reports[k].required && (o.report(k).NotProduced? || o.report(k).Unparsable?)))
    && Distinct(ReportedNames(spec, o, |spec.reports|))
  }

  /** The names a control reports: those of its command, and those of every parsed report. */
  lemma {:induction false} NamesAreReported(spec: ControlSpec, o: Observation, n: nat, name: string)
    requires o.command.Completed? && n <= |spec.reports|
    ensures name in ReportedNames(spec, o, n) <==>
      || name == "exit_code" || name == "duration_seconds" || name == "output_truncated"
      || exists k, m :: 0 <= k < n && o.report(k).Parsed? && m in o.report(k).metrics && m.name == name
  {
    if n == 0 {
      NamesAre(CommandMetrics(o.command), name);
    } else {
      NamesAreReported(spec, o, n - 1, name);
      if o.report(n - 1).Parsed? { NamesAre(o.report(n - 1).metrics, name); }
      if k, m :| 0 <= k < n && o.report(k).Parsed? && m in o.report(k).metrics && m.name == name {
        assert k < n - 1 || k == n - 1;
      }
    }
  }

  lemma NamesAre(metrics: seq<Metric>, name: string)
    ensures name in Names(metrics) <==> exists m :: m in metrics && m.name == name
  {
    NamedByNames(metrics, name);
  }

  /** PASSED with an expected exit code, fine reports and an untouched tree; FAILED with an
      unexpected one and otherwise the same; ERROR in every other case. */
  lemma StatusMeans(spec: ControlSpec, o: Observation, render: Problem -> Remark)
    requires ControlOf(spec, o, render).Ok?
    ensures
      ControlOf(spec, o, render).value.status ==
      if Ran(o) && ReportsAreFine(spec, o) && o.tree == Clean
      then if o.command.exitCode in spec.expectedExitCodes then Passed else Failed
      else Error
    ensures ControlOf(spec, o, render).value.id == spec.id && ControlOf(spec, o, render).value.severity == spec.severity
  {
    if Ran(o) && !StorageFails(spec, o, |spec.reports|) { ReportsWithoutErrors(spec, o, |spec.reports|); }
  }

  /** What ends the gate instead of a result, other than the contract's refusal. */
  lemma ErrorsMean(spec: ControlSpec, o: Observation, render: Problem -> Remark)
    ensures ControlOf(spec, o, render) == Err(OutOfBudget) <==>
      o.directory == InsideRepository && o.command == BudgetExhausted
    ensures ControlOf(spec, o, render) == Err(StorageFailed) <==>
      Ran(o) && exists k :: 0 <= k < |spec.reports| && o.report(k) == NotStored
    ensures ControlOf(spec, o, render) == Err(TreeUnverifiable) <==>
      && Ran(o) && o.tree == Unverifiable && forall k :: 0 <= k < |spec.reports| ==> o.report(k) != NotStored
    ensures ControlOf(spec, o, render).Err? ==>
      ControlOf(spec, o, render).error in {OutOfBudget, StorageFailed, TreeUnverifiable, ControlRejected}
  {}

  /** The metrics of a control that did not run. */
  lemma MetricsWithoutRun(spec: ControlSpec, o: Observation, render: Problem -> Remark)
    requires ControlOf(spec, o, render).Ok? && !Ran(o)
    ensures ControlOf(spec, o, render).value.metrics ==
      if o.directory == InsideRepository && o.command == TimedOut then [Metric("timed_out", Finite(1.0))] else []
  {}

  /** Exit code, duration and truncation of the command, as numbers. */
  predicate OfCommand(o: Observation, x: Metric)
    requires o.command.Completed?
  {
    || x == Metric("exit_code", Finite(o.command.exitCode as real))
    || x == Metric("duration_seconds", o.command.duration)
    || x == Metric("output_truncated", Finite(if o.command.truncated then 1.0 else 0.0))
  }

  /** The metrics of a control with fine reports are those of its command and of every report,
      and the mark of a modified tree, which replaces a metric of that name. */
  lemma MetricsMean(spec: ControlSpec, o: Observation, render: Problem -> Remark, x: Metric)
    requires ControlOf(spec, o, render).Ok? && Ran(o) && ReportsAreFine(spec, o)
    ensures x in ControlOf(spec, o, render).value.metrics <==>
      if o.tree == Contaminated && x.name == "workspace_contaminated" then x.value == Finite(1.0)
      else OfCommand(o, x) || exists k :: 0 <= k < |spec.reports| && o.report(k).Parsed? && x in o.report(k).metrics
  {
    ReportsWithoutErrors(spec, o, |spec.reports|);
    MetricsGathered(spec, o, |spec.reports|, x);
    var g := Reports(spec, o, |spec.reports|);
    assert x in PutMetric(g.metrics, Metric("workspace_contaminated", Finite(1.0))) <==>
        || (x in g.metrics && x.name != "workspace_contaminated")
        || x == Metric("workspace_contaminated", Finite(1.0));
  }

  lemma {:induction false} MetricsGathered(spec: ControlSpec, o: Observation, n: nat, x: Metric)
    requires o.command.Completed? && n <= |spec.reports| && !StorageFails(spec, o, n)
    requires Reports(spec, o, n).errors == []
    ensures x in Reports(spec, o, n).metrics <==>
      OfCommand(o, x) || exists k :: 0 <= k < n && o.report(k).Parsed? && x in o.report(k).metrics
  {
    if n > 0 {
      var before := Reports(spec, o, n - 1);
      NoErrorsBefore(before, spec.reports[n - 1], o.report(n - 1));
      MetricsGathered(spec, o, n - 1, x);
      if o.report(n - 1).Parsed? { MetricsAdded(before, o.report(n - 1).metrics, x); }
      if k :| 0 <= k < n && o.report(k).Parsed? && x in o.report(k).metrics {
        assert k < n - 1 || k == n - 1;
      }
    }
  }

  lemma NoErrorsBefore(g: Gathered, spec: ReportSpec, report: Report)
    requires AddReport(g, spec, report).errors == []
    ensures g.errors == []
  {
    if report.Parsed? { ErrorsStay(g, report.metrics); }
  }

  lemma {:induction false} MetricsAdded(g: Gathered, metrics: seq<Metric>, x: Metric)
    requires AddMetrics(g, metrics).errors == []
    ensures x in AddMetrics(g, metrics).metrics <==> x in g.metrics || x in metrics
  {
    if metrics != [] {
      var front, last := metrics[..|metrics| - 1], metrics[|metrics| - 1];
      assert metrics == front + [last];
      MetricsAdded(g, front, x);
    }
  }

  /** The reasons of a control name its problem: why it did not run, the unexpected exit code,
      the modified tree, and every report that is one. */
  lemma ReasonsMean(spec: ControlSpec, o: Observation, render: Problem -> Remark, k: nat)
    requires ControlOf(spec, o, render).Ok?
    ensures
      var c := ControlOf(spec, o, render).value;
      && (o.directory == OutsideRepository ==> c.reasons == [render(BadDirectory)])
      && (o.directory == AbsentDirectory ==> c.reasons == [render(MissingDirectory)])
      && (o.directory == InsideRepository && o.command == TimedOut ==> c.reasons == [render(Timeout)])
      && (o.directory == InsideRepository && o.command == NotExecuted ==> c.reasons == [render(CannotExecute)])
      && (c.status == Failed ==> render(WrongExitCode(o.command.exitCode)) in c.reasons)
      && (Ran(o) && o.tree == Contaminated ==> render(TreeModified) in c.reasons)
      && (Ran(o) && k < |spec.reports| ==>
            var id := spec.reports[k].id;
            match o.report(k)
            case Escaping => render(ReportEscapes(id)) in c.reasons
            case NotProduced => render(ReportMissing(id)) in c.reasons
            case Unreadable => render(ReportUnreadable(id)) in c.reasons
            case Unparsable => render(ReportUnparsable(id)) in c.reasons
            case _ => true)
  {
    if Ran(o) {
      var g := Reports(spec, o, |spec.reports|);
      if k < |spec.reports| { ProblemsAreGathered(spec, o, |spec.reports|, k); }
      var contamination := if o.tree.Contaminated? then [TreeModified] else [];
      var outcome :=
        if g.errors != [] then g.errors
        else if o.command.exitCode in spec.expectedExitCodes then []
        else [WrongExitCode(o.command.exitCode)];
      forall problem | problem in g.notes + outcome + contamination
        ensures render(problem) in Render(g.notes + outcome + contamination, render)
      {
        RenderKeeps(g.notes + outcome + contamination, render, problem);
      }
    }
  }

  lemma RenderKeeps(problems: seq<Problem>, render: Problem -> Remark, problem: Problem)
    requires problem in problems
    ensures render(problem) in Render(problems, render)
  {
    var i :| 0 <= i < |problems| && problems[i] == problem;
    assert Render(problems, render)[i] == render(problem);
  }

  /** The problem a report is, if it is one. */
  function ProblemOf(id: string, report: Report): Option<Problem> {
    match report
    case Escaping => Some(ReportEscapes(id))
    case NotProduced => Some(ReportMissing(id))
    case Unreadable => Some(ReportUnreadable(id))
    case Unparsable => Some(ReportUnparsable(id))
    case _ => None
  }

  lemma {:induction false} ProblemsAreGathered(spec: ControlSpec, o: Observation, n: nat, k: nat)
    requires o.command.Completed? && k < n <= |spec.reports|
    ensures
      var problem, g := ProblemOf(spec.reports[k].id, o.report(k)), Reports(spec, o, n);
      problem.Some? ==> problem.value in g.errors || problem.value in g.notes
  {
    var before := Reports(spec, o, n - 1);
    if k < n - 1 {
      ProblemsAreGathered(spec, o, n - 1, k);
      ProblemsStay(before, spec.reports[n - 1], o.report(n - 1));
    }
  }

  lemma ProblemsStay(g: Gathered, spec: ReportSpec, report: Report)
    ensures g.errors <= AddReport(g, spec, report).errors && g.notes <= AddReport(g, spec, report).notes
  {
    if report.Parsed? {
      ErrorsStay(g, report.metrics);
      NotesStay(g, report.metrics);
    }
  }

  lemma {:induction false} NotesStay(g: Gathered, metrics: seq<Metric>)
    ensures AddMetrics(g, metrics).notes == g.notes
  {
    if metrics != [] { NotesStay(g, metrics[..|metrics| - 1]); }
  }
}
