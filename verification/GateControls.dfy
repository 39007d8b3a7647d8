/** Running one control and flattening the controls' metrics into one namespace. */
module GateControls {
  import opened Prelude
  import opened GateModel

  datatype ReportSpec = ReportSpec(id: string, required: bool)

  datatype ControlSpec = ControlSpec(
    id: string, severity: Severity, expectedExitCodes: seq<int>, reports: seq<ReportSpec>,
    continueAfterFailure: bool)

  // ----- What the environment answers -----------------------------------------

  datatype Directory = InsideRepository | OutsideRepository | AbsentDirectory

  datatype Command =
    | TimedOut | NotExecuted | BudgetExhausted
    | Completed(exitCode: int, duration: Number, truncated: bool)

  datatype Report = Escaping | NotProduced | Unreadable | NotStored | Unparsable | Parsed(metrics: seq<Metric>)

  datatype Tree = Clean | Contaminated | Unverifiable

  /** `report(k)` is what the k-th configured report turns out to be. */
  datatype Observation = Observation(directory: Directory, command: Command, report: nat -> Report, tree: Tree)

  /** What a control's reason text is about; `render` turns it into text. */
  datatype Problem =
    | BadDirectory | MissingDirectory | Timeout | CannotExecute
    | ReportEscapes(id: string) | ReportMissing(id: string) | ReportUnreadable(id: string)
    | ReportUnparsable(id: string) | DuplicateMetric(name: string)
    | WrongExitCode(code: int) | TreeModified

  datatype GateError =
    | OutOfBudget | StorageFailed | TreeUnverifiable | ControlRejected
    | NotNormalizable | PolicyNotEvaluable | ResultRejected

  // ----- Specification ----------------------------------------------------------

  /** Metrics, notes and errors gathered while the reports are read. */
  datatype Gathered = Gathered(metrics: seq<Metric>, notes: seq<Problem>, errors: seq<Problem>)

  predicate Named(metrics: seq<Metric>, name: string) {
    exists m :: m in metrics && m.name == name
  }

  /** First report of a name wins; every later one is an error. */
  function AddMetric(g: Gathered, m: Metric): Gathered {
    if Named(g.metrics, m.name) then g.(errors := g.errors + [DuplicateMetric(m.name)])
    else g.(metrics := g.metrics + [m])
  }

  function AddMetrics(g: Gathered, metrics: seq<Metric>): Gathered {
    if metrics == [] then g
    else AddMetric(AddMetrics(g, metrics[..|metrics| - 1]), metrics[|metrics| - 1])
  }

  /** The error or note a report gives rise to, if any. */
  function AddReport(g: Gathered, spec: ReportSpec, report: Report): Gathered {
    match report
    case Escaping => g.(errors := g.errors + [ReportEscapes(spec.id)])
    case NotProduced => Complain(g, spec, ReportMissing(spec.id))
    case Unreadable => g.(errors := g.errors + [ReportUnreadable(spec.id)])
    case NotStored => g
    case Unparsable => Complain(g, spec, ReportUnparsable(spec.id))
    case Parsed(metrics) => AddMetrics(g, metrics)
  }

  /** Required reports make errors, optional ones only notes. */
  function Complain(g: Gathered, spec: ReportSpec, problem: Problem): Gathered {
    if spec.required then g.(errors := g.errors + [problem]) else g.(notes := g.notes + [problem])
  }

  function CommandMetrics(c: Command): seq<Metric>
    requires c.Completed?
  {
    [Metric("exit_code", Finite(c.exitCode as real)), Metric("duration_seconds", c.duration),
     Metric("output_truncated", Finite(if c.truncated then 1.0 else 0.0))]
  }

  /** After the first `n` reports. */
  function Reports(spec: ControlSpec, o: Observation, n: nat): Gathered
    requires o.command.Completed? && n <= |spec.reports|
  {
    if n == 0 then Gathered(CommandMetrics(o.command), [], [])
    else AddReport(Reports(spec, o, n - 1), spec.reports[n - 1], o.report(n - 1))
  }

  /** Storing some report's artifact fails, which ends the gate. */
  predicate StorageFails(spec: ControlSpec, o: Observation, n: nat)
    requires n <= |spec.reports|
  {
    exists k :: 0 <= k < n && o.report(k).NotStored?
  }

  function PutMetric(metrics: seq<Metric>, m: Metric): seq<Metric> {
    Filter(metrics, (x: Metric) => x.name != m.name) + [m]
  }

  function Render(problems: seq<Problem>, render: Problem -> Remark): seq<Remark> {
    seq(|problems|, i requires 0 <= i < |problems| => render(problems[i]))
  }

  /** The status the control reports once its command has completed. */
  function CompletedStatus(spec: ControlSpec, o: Observation): Status
    requires o.command.Completed?
  {
    if Reports(spec, o, |spec.reports|).errors != [] || o.tree.Contaminated? then Error
    else if o.command.exitCode in spec.expectedExitCodes then Passed
    else Failed
  }

  function CompletedControl(spec: ControlSpec, o: Observation, render: Problem -> Remark): Control
    requires o.command.Completed?
  {
    var g := Reports(spec, o, |spec.reports|);
    var outcome :=
      if g.errors != [] then g.errors
      else if o.command.exitCode in spec.expectedExitCodes then []
      else [WrongExitCode(o.command.exitCode)];
    var contamination := if o.tree.Contaminated? then [TreeModified] else [];
    var metrics := if o.tree.Contaminated? then PutMetric(g.metrics, Metric("workspace_contaminated", Finite(1.0)))
                   else g.metrics;
    Control(spec.id, CompletedStatus(spec, o), spec.severity, metrics,
            Render(g.notes + outcome + contamination, render))
  }

  /** Constructing a `ControlResult` runs its validators. */
  function Constructed(c: Control): Result<Control, GateError> {
    if ValidControl(c) then Ok(c) else Err(ControlRejected)
  }

  function ErrorControl(spec: ControlSpec, metrics: seq<Metric>, problem: Problem, render: Problem -> Remark): Control {
    Control(spec.id, Error, spec.severity, metrics, [render(problem)])
  }

  function ControlOf(spec: ControlSpec, o: Observation, render: Problem -> Remark): Result<Control, GateError> {
    if o.directory.OutsideRepository? then Constructed(ErrorControl(spec, [], BadDirectory, render))
    else if o.directory.AbsentDirectory? then Constructed(ErrorControl(spec, [], MissingDirectory, render))
    else
      match o.command
      case BudgetExhausted => Err(OutOfBudget)
      case TimedOut => Constructed(ErrorControl(spec, [Metric("timed_out", Finite(1.0))], Timeout, render))
      case NotExecuted => Constructed(ErrorControl(spec, [], CannotExecute, render))
      case Completed(_, _, _) =>
        if StorageFails(spec, o, |spec.reports|) then Err(StorageFailed)
        else if o.tree.Unverifiable? then Err(TreeUnverifiable)
        else Constructed(CompletedControl(spec, o, render))
  }

  // ----- Implementation -----------------------------------------------------------

  /** `DeterministicControlRunner.run_control`. */
  method RunControl(spec: ControlSpec, o: Observation, render: Problem -> Remark)
    returns (r: Result<Control, GateError>)
    ensures r == ControlOf(spec, o, render)
  {
    if o.directory.OutsideRepository? {
      return Constructed(ErrorControl(spec, [], BadDirectory, render));
    }
    if o.directory.AbsentDirectory? {
      return Constructed(ErrorControl(spec, [], MissingDirectory, render));
    }
    match o.command {
      case BudgetExhausted => return Err(OutOfBudget);
      case TimedOut =>
        return Constructed(ErrorControl(spec, [Metric("timed_out", Finite(1.0))], Timeout, render));
      case NotExecuted =>
        return Constructed(ErrorControl(spec, [], CannotExecute, render));
      case Completed(exitCode, _, _) =>
        var gathered := ReadReports(spec, o);
        if gathered.Err? {
          return Err(gathered.error);
        }
        var g := gathered.value;
        var reasons := g.notes;
        var metrics := g.metrics;
        var status := Passed;
        if g.errors != [] {
          status := Error;
          reasons := reasons + g.errors;
        } else if exitCode !in spec.expectedExitCodes {
          status := Failed;
          reasons := reasons + [WrongExitCode(exitCode)];
        }
        if o.tree.Unverifiable? {
          return Err(TreeUnverifiable);
        }
        if o.tree.Contaminated? {
          status := Error;
          reasons := reasons + [TreeModified];
          metrics := PutMetric(metrics, Metric("workspace_contaminated", Finite(1.0)));
        }
        var control := Control(spec.id, status, spec.severity, metrics, Render(reasons, render));
        assert control == CompletedControl(spec, o, render);
        return Constructed(control);
    }
  }

  method ReadReports(spec: ControlSpec, o: Observation) returns (r: Result<Gathered, GateError>)
    requires o.command.Completed?
    ensures r.Err? <==> StorageFails(spec, o, |spec.reports|)
    ensures r.Err? ==> r.error == StorageFailed
    ensures r.Ok? ==> r.value == Reports(spec, o, |spec.reports|)
  {
    var g := Gathered(CommandMetrics(o.command), [], []);
    for k := 0 to |spec.reports|
      invariant g == Reports(spec, o, k) && !StorageFails(spec, o, k)
    {
      var report := spec.reports[k];
      match o.report(k) {
        case Escaping => g := g.(errors := g.errors + [ReportEscapes(report.id)]);
        case NotProduced =>
          if report.required {
            g := g.(errors := g.errors + [ReportMissing(report.id)]);
          } else {
            g := g.(notes := g.notes + [ReportMissing(report.id)]);
          }
        case Unreadable => g := g.(errors := g.errors + [ReportUnreadable(report.id)]);
        case NotStored => return Err(StorageFailed);
        case Unparsable =>
          if report.required {
            g := g.(errors := g.errors + [ReportUnparsable(report.id)]);
          } else {
            g := g.(notes := g.notes + [ReportUnparsable(report.id)]);
          }
        case Parsed(metrics) =>
          g := MergeMetrics(g, metrics);
      }
    }
    return Ok(g);
  }

  method MergeMetrics(start: Gathered, metrics: seq<Metric>) returns (g: Gathered)
    ensures g == AddMetrics(start, metrics)
  {
    g := start;
    for i := 0 to |metrics|
      invariant g == AddMetrics(start, metrics[..i])
    {
      if exists m :: m in g.metrics && m.name == metrics[i].name {
        g := g.(errors := g.errors + [DuplicateMetric(metrics[i].name)]);
      } else {
        g := g.(metrics := g.metrics + [metrics[i]]);
      }
      assert metrics[..i + 1][..i] == metrics[..i];
    }
    assert metrics[..|metrics|] == metrics;
  }

  // ----- When a control passes -----------------------------------------------------

  /** Every name the command and the first `n` reports bring, in order. */
  function ReportedNames(spec: ControlSpec, o: Observation, n: nat): seq<string>
    requires o.command.Completed? && n <= |spec.reports|
  {
    if n == 0 then Names(CommandMetrics(o.command))
    else
      ReportedNames(spec, o, n - 1)
      + (if o.report(n - 1).Parsed? then Names(o.report(n - 1).metrics) else [])
  }

  function Names(metrics: seq<Metric>): seq<string> {
    seq(|metrics|, i requires 0 <= i < |metrics| => metrics[i].name)
  }

  /** A report that raises no error. */
  predicate Acceptable(spec: ReportSpec, report: Report) {
    report.Parsed? || (!spec.required && (report.NotProduced? || report.Unparsable?))
  }

  /** Without errors so far, the gathered names are all the reported names. */
  lemma {:induction false} MetricsWithoutErrors(g: Gathered, names: seq<string>, metrics: seq<Metric>)
    requires g.errors == [] ==> Names(g.metrics) == names
    requires g.errors == [] <==> Distinct(names)
    ensures
      var r := AddMetrics(g, metrics);
      && (r.errors == [] <==> Distinct(names + Names(metrics)))
      && (r.errors == [] ==> Names(r.metrics) == names + Names(metrics))
  {
    if metrics == [] {
      assert names + Names(metrics) == names;
    } else {
      var front, last := metrics[..|metrics| - 1], metrics[|metrics| - 1];
      MetricsWithoutErrors(g, names, front);
      assert names + Names(metrics) == (names + Names(front)) + [last.name];
      DistinctThen(names + Names(front), last.name);
      var r := AddMetrics(g, front);
      NamedByNames(r.metrics, last.name);
      assert Names(r.metrics + [last]) == Names(r.metrics) + [last.name];
    }
  }

  lemma NamedByNames(metrics: seq<Metric>, name: string)
    ensures Named(metrics, name) <==> name in Names(metrics)
  {
    if Named(metrics, name) {
      var i :| 0 <= i < |metrics| && metrics[i].name == name;
      assert Names(metrics)[i] == name;
    }
  }

  lemma {:induction false} ReportsWithoutErrors(spec: ControlSpec, o: Observation, n: nat)
    requires o.command.Completed? && n <= |spec.reports| && !StorageFails(spec, o, n)
    ensures
      var g := Reports(spec, o, n);
      && (g.errors == [] <==>
            && (forall k :: 0 <= k < n ==> Acceptable(spec.reports[k], o.report(k)))
            && Distinct(ReportedNames(spec, o, n)))
      && (g.errors == [] ==> Names(g.metrics) == ReportedNames(spec, o, n))
  {
    if n > 0 {
      ReportsWithoutErrors(spec, o, n - 1);
      OneMoreReport(Reports(spec, o, n - 1), ReportedNames(spec, o, n - 1), spec.reports[n - 1], o.report(n - 1));
      if Distinct(ReportedNames(spec, o, n)) {
        assert ReportedNames(spec, o, n - 1) <= ReportedNames(spec, o, n);
        PrefixDistinct(ReportedNames(spec, o, n - 1), ReportedNames(spec, o, n));
      }
    } else {
      assert Names(CommandMetrics(o.command)) == ["exit_code", "duration_seconds", "output_truncated"];
      assert "exit_code"[0] == 'e' && "duration_seconds"[0] == 'd' && "output_truncated"[0] == 'o';
    }
  }

  lemma PrefixDistinct(names: seq<string>, longer: seq<string>)
    requires names <= longer && Distinct(longer)
    ensures Distinct(names)
  {
    assert forall i :: 0 <= i < |names| ==> names[i] == longer[i];
  }

  lemma {:induction false} ErrorsStay(g: Gathered, metrics: seq<Metric>)
    ensures g.errors <= AddMetrics(g, metrics).errors
  {
    if metrics != [] { ErrorsStay(g, metrics[..|metrics| - 1]); }
  }

  lemma OneMoreReport(g: Gathered, names: seq<string>, spec: ReportSpec, report: Report)
    requires g.errors == [] ==> Names(g.metrics) == names && Distinct(names)
    requires !report.NotStored?
    ensures
      var r, all := AddReport(g, spec, report), names + (if report.Parsed? then Names(report.metrics) else []);
      && (r.errors == [] <==> g.errors == [] && Acceptable(spec, report) && Distinct(all))
      && (r.errors == [] ==> Names(r.metrics) == all)
  {
    if report.Parsed? {
      ErrorsStay(g, report.metrics);
      if g.errors == [] { MetricsWithoutErrors(g, names, report.metrics); }
    } else {
      assert names + [] == names;
    }
  }

  /** The command ran in the repository with an expected exit code, every report is
      acceptable, no metric is reported twice and the tracked files are untouched. */
  predicate Passes(spec: ControlSpec, o: Observation) {
    && o.directory.InsideRepository? && o.command.Completed? && o.tree.Clean?
    && o.command.exitCode in spec.expectedExitCodes
    && (forall k :: 0 <= k < |spec.reports| ==> Acceptable(spec.reports[k], o.report(k)))
    && Distinct(ReportedNames(spec, o, |spec.reports|))
  }

  /** A control passes exactly under those conditions, and is otherwise failed or errored. */
  lemma PassedExactlyWhen(spec: ControlSpec, o: Observation, render: Problem -> Remark)
    requires ControlOf(spec, o, render).Ok?
    ensures
      var c := ControlOf(spec, o, render).value;
      && c.id == spec.id && c.severity == spec.severity && ValidControl(c)
      && (c.status == Passed <==> Passes(spec, o))
      && (c.status == Passed || Failing(c.status))
  {
    if o.command.Completed? && !StorageFails(spec, o, |spec.reports|) {
      ReportsWithoutErrors(spec, o, |spec.reports|);
    }
  }

  /** The control gets as far as its result: nothing raised before. */
  predicate Completes(spec: ControlSpec, o: Observation) {
    && o.directory.InsideRepository? && o.command.Completed?
    && !StorageFails(spec, o, |spec.reports|) && !o.tree.Unverifiable?
  }

  predicate UsableMetric(m: Metric) { m.value.Finite? && !Blank(m.name) }

  /** The contract refuses a result exactly when the control is of dominant severity and
      passes, or one of its metrics is not finite or has a blank name. */
  lemma RejectedExactlyWhen(spec: ControlSpec, o: Observation, render: Problem -> Remark)
    ensures ControlOf(spec, o, render) == Err(ControlRejected) <==>
      && Completes(spec, o)
      && ((spec.severity.DominantFailure? && Passes(spec, o))
          || exists m :: m in CompletedControl(spec, o, render).metrics && !UsableMetric(m))
  {
    assert !Blank("timed_out") by { assert 't' in "timed_out"; }
    if Completes(spec, o) { ReportsWithoutErrors(spec, o, |spec.reports|); }
  }

  // ----- One namespace of metrics -----------------------------------------------------

  function Qualified(id: string, name: string): string {
    id + "." + name
  }

  function Namespace(id: string, metrics: seq<Metric>): seq<Metric> {
    seq(|metrics|, i requires 0 <= i < |metrics| => Metric(Qualified(id, metrics[i].name), metrics[i].value))
  }

  function Flat(controls: seq<Control>): seq<Metric> {
    if controls == [] then []
    else
      var last := controls[|controls| - 1];
      Flat(controls[..|controls| - 1]) + Namespace(last.id, last.metrics)
  }

  /** The namespace holds the controls' metrics, each under its control's id and a dot. */
  lemma {:induction false} FlatIs(controls: seq<Control>, x: Metric)
    ensures x in Flat(controls) <==>
      exists c, m :: c in controls && m in c.metrics && x == Metric(c.id + "." + m.name, m.value)
    decreases |controls|
  {
    if controls != [] {
      var front, last := controls[..|controls| - 1], controls[|controls| - 1];
      FlatIs(front, x);
      NamespaceIs(last.id, last.metrics, x);
      assert controls == front + [last];
      if c, m :| c in controls && m in c.metrics && x == Metric(c.id + "." + m.name, m.value) {
        assert c in front || c == last;
      }
    }
  }

  lemma NamespaceIs(id: string, metrics: seq<Metric>, x: Metric)
    ensures x in Namespace(id, metrics) <==> exists m :: m in metrics && x == Metric(id + "." + m.name, m.value)
  {
    if m :| m in metrics && x == Metric(id + "." + m.name, m.value) {
      var i :| 0 <= i < |metrics| && metrics[i] == m;
      assert Namespace(id, metrics)[i] == x;
    }
  }

  predicate Normalizable(flat: seq<Metric>) {
    && (forall i, j :: 0 <= i < j < |flat| ==> flat[i].name != flat[j].name)
    && forall i :: 0 <= i < |flat| ==> flat[i].value.Finite?
  }

  /** The mapping holds exactly the listed metrics. */
  predicate Maps(m: map<string, Number>, flat: seq<Metric>) {
    && (forall i :: 0 <= i < |flat| ==> flat[i].name in m && m[flat[i].name] == flat[i].value)
    && forall name :: name in m ==> exists i :: 0 <= i < |flat| && flat[i].name == name
  }

  lemma MapsIsUnique(m: map<string, Number>, n: map<string, Number>, flat: seq<Metric>)
    requires Maps(m, flat) && Maps(n, flat)
    ensures m == n
  {}

  lemma MapsThen(m: map<string, Number>, flat: seq<Metric>, x: Metric)
    requires Maps(m, flat) && Normalizable(flat) && x.name !in m && x.value.Finite?
    ensures Maps(m[x.name := x.value], flat + [x]) && Normalizable(flat + [x])
  {
    var longer := flat + [x];
    assert forall i :: 0 <= i < |flat| ==> longer[i] == flat[i] && longer[i].name != x.name;
    var grown := m[x.name := x.value];
    forall name | name in grown
      ensures exists i :: 0 <= i < |longer| && longer[i].name == name
    {
      if name == x.name {
        assert longer[|flat|].name == name;
      } else {
        var i :| 0 <= i < |flat| && flat[i].name == name;
        assert longer[i].name == name;
      }
    }
  }

  lemma NotNormalizableThen(m: map<string, Number>, flat: seq<Metric>, x: Metric, longer: seq<Metric>)
    requires Maps(m, flat) && (x.name in m || !x.value.Finite?) && flat + [x] <= longer
    ensures !Normalizable(longer)
  {
    assert longer[|flat|] == x;
    if x.name in m {
      var i :| 0 <= i < |flat| && flat[i].name == x.name;
      assert longer[i] == flat[i];
    }
  }

  /** `namespace_metrics`. */
  method NamespaceMetrics(controls: seq<Control>) returns (r: Result<map<string, Number>, GateError>)
    ensures r.Ok? <==> Normalizable(Flat(controls))
    ensures r.Ok? ==> Maps(r.value, Flat(controls))
    ensures r.Err? ==> r.error == NotNormalizable
  {
    var result: map<string, Number> := map[];
    for i := 0 to |controls|
      invariant Maps(result, Flat(controls[..i])) && Normalizable(Flat(controls[..i]))
    {
      var added := AddControl(result, Flat(controls[..i]), controls[i]);
      FlatThen(controls, i);
      if added.Err? {
        return Err(NotNormalizable);
      }
      result := added.value;
    }
    assert controls[..|controls|] == controls;
    r := Ok(result);
  }

  lemma FlatThen(controls: seq<Control>, i: nat)
    requires i < |controls|
    ensures Flat(controls[..i + 1]) == Flat(controls[..i]) + Namespace(controls[i].id, controls[i].metrics)
    ensures !Normalizable(Flat(controls[..i + 1])) ==> !Normalizable(Flat(controls))
  {
    assert controls[..i + 1][..i] == controls[..i];
    FlatPrefix(controls, i + 1);
  }

  lemma {:induction false} FlatPrefix(controls: seq<Control>, n: nat)
    requires n <= |controls|
    ensures Flat(controls[..n]) <= Flat(controls)
    ensures Normalizable(Flat(controls)) ==> Normalizable(Flat(controls[..n]))
    decreases |controls|
  {
    if n == |controls| {
      assert controls[..n] == controls;
    } else {
      var front := controls[..|controls| - 1];
      FlatPrefix(front, n);
      assert front[..n] == controls[..n];
      if Normalizable(Flat(controls)) { NormalizablePrefix(Flat(front), Flat(controls)); }
    }
  }

  lemma NormalizablePrefix(flat: seq<Metric>, longer: seq<Metric>)
    requires flat <= longer && Normalizable(longer)
    ensures Normalizable(flat)
  {
    assert forall i :: 0 <= i < |flat| ==> flat[i] == longer[i];
  }

  /** The inner loop: one control's metrics. */
  method AddControl(start: map<string, Number>, ghost flat: seq<Metric>, c: Control)
    returns (r: Result<map<string, Number>, GateError>)
    requires Maps(start, flat) && Normalizable(flat)
    ensures r.Ok? <==> Normalizable(flat + Namespace(c.id, c.metrics))
    ensures r.Ok? ==> Maps(r.value, flat + Namespace(c.id, c.metrics))
  {
    var result := start;
    ghost var added := Namespace(c.id, c.metrics);
    assert flat + added[..0] == flat;
    for j := 0 to |c.metrics|
      invariant Maps(result, flat + added[..j]) && Normalizable(flat + added[..j])
    {
      var name, value := Qualified(c.id, c.metrics[j].name), c.metrics[j].value;
      ghost var x := Metric(name, value);
      assert (flat + added[..j]) + [x] == flat + added[..j + 1];
      if name in result {
        NotNormalizableThen(result, flat + added[..j], x, flat + added);
        return Err(NotNormalizable);
      }
      if value.NotFinite? {
        NotNormalizableThen(result, flat + added[..j], x, flat + added);
        return Err(NotNormalizable);
      }
      MapsThen(result, flat + added[..j], x);
      result := result[name := value];
    }
    assert added[..|c.metrics|] == added;
    r := Ok(result);
  }

  predicate Alphanumeric(c: char) {
    'A' <= c <= 'Z' || 'a' <= c <= 'z' || '0' <= c <= '9'
  }

  /** The pattern of control identifiers and of configured metric names. */
  predicate LegalName(s: string) {
    && 1 <= |s| <= 128 && Alphanumeric(s[0])
    && forall c :: c in s ==> Alphanumeric(c) || c in "._:-"
  }

  /** `b` is `a`, a dot and something that starts like a name. */
  predicate Continues(a: string, b: string) {
    |a| + 1 < |b| && b[..|a|] == a && b[|a|] == '.' && Alphanumeric(b[|a| + 1])
  }

  /** Two control identifiers can collide exactly when they are equal or one continues
      the other: the namespace does not by itself keep them apart. */
  lemma NamesCanCollide(a: string, b: string)
    requires LegalName(a) && LegalName(b)
    ensures (exists m, n :: LegalName(m) && LegalName(n) && Qualified(a, m) == Qualified(b, n))
       <==> a == b || Continues(a, b) || Continues(b, a)
  {
    assert LegalName("x");
    if a == b {
      assert Qualified(a, "x") == Qualified(b, "x");
    } else if Continues(a, b) {
      Collide(a, b);
    } else if Continues(b, a) {
      Collide(b, a);
    }
    forall m, n | LegalName(m) && LegalName(n) && Qualified(a, m) == Qualified(b, n)
      ensures a == b || Continues(a, b) || Continues(b, a)
    {
      if |a| < |b| {
        CollisionShape(a, m, b, n);
      } else if |b| < |a| {
        CollisionShape(b, n, a, m);
      } else {
        assert Qualified(a, m)[..|a|] == a && Qualified(b, n)[..|b|] == b;
      }
    }
  }

  /** The longer identifier's rest, with a suffix, is a metric name of the shorter one. */
  lemma Collide(a: string, b: string)
    requires LegalName(a) && LegalName(b) && Continues(a, b)
    ensures
      var m := b[|a| + 1..] + ".x";
      LegalName(m) && Qualified(a, m) == Qualified(b, "x")
  {
    var rest := b[|a| + 1..];
    assert b == a + "." + rest;
    assert rest[0] == b[|a| + 1];
    forall c | c in rest + ".x"
      ensures Alphanumeric(c) || c in "._:-"
    {
      if c in rest { assert c in b; }
    }
  }

  lemma CollisionShape(a: string, m: string, b: string, n: string)
    requires |a| < |b| && LegalName(m) && Qualified(a, m) == Qualified(b, n)
    ensures Continues(a, b)
  {
    var s := Qualified(a, m);
    assert s[..|a|] == a && s[|a|] == '.' && s[..|b|] == b && s[|b|] == '.';
    assert b[..|a|] == s[..|b|][..|a|] == s[..|a|];
    assert s[|a| + 1] == m[0];
    assert b[|a|] == s[|a|] && |b| > |a| + 1;
    assert b[|a| + 1] == s[|a| + 1];
  }
}
