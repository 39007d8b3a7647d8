/** The campaign runner: every case through the online pipeline, then its oracle. */
module Campaign {
  import opened Prelude
  import opened CampaignMetrics
  import Readiness
  import Wilson

  datatype Case = Case(
    caseId: string, taskType: string, difficulty: string,
    taskPayloadUri: string, startingRepositoryUri: string, startingCommit: string,
    oracleUri: string, oracleSha256: string)

  datatype Benchmark = Benchmark(cases: seq<Case>, validated: bool)

  /** All the online pipeline is told about a case. */
  datatype Request = Request(
    caseId: string, taskPayloadUri: string, startingRepositoryUri: string, startingCommit: string)

  datatype Execution = Execution(
    gateOutcome: GateOutcome, workspace: Option<string>,
    runId: Option<string>, manifestSha256: Option<string>, failureCategory: Option<string>)

  datatype Event = Executed(request: Request) | OracleRead(of: Case)

  /** The three collaborators. The pipeline may answer differently after every
      request it has seen; the oracle side may depend on everything that happened. */
  datatype World = World(
    pipeline: seq<Request> -> Result<Execution, string>,
    load: (seq<Event>, Case) -> Result<string, string>,
    grade: (seq<Event>, string, string) -> Result<OracleOutcome, string>)

  datatype Report = Report(results: seq<CaseResult>, metrics: Metrics, readiness: Readiness.Decision)

  function Ask(c: Case): Request {
    Request(c.caseId, c.taskPayloadUri, c.startingRepositoryUri, c.startingCommit)
  }

  function Requests(cases: seq<Case>): seq<Request> {
    seq(|cases|, i requires 0 <= i < |cases| => Ask(cases[i]))
  }

  // ----- Specification --------------------------------------------------------

  /** The events one case adds after `log`, given the pipeline's reply. */
  function CaseEvents(c: Case, reply: Result<Execution, string>): seq<Event> {
    if reply.Ok? && reply.value.workspace.Some? then [Executed(Ask(c)), OracleRead(c)] else [Executed(Ask(c))]
  }

  function Grade(w: World, log: seq<Event>, c: Case, workspace: string): OracleOutcome {
    var oracle := w.load(log, c);
    if oracle.Err? then Ungradable
    else
      var grade := w.grade(log, workspace, oracle.value);
      if grade.Err? then Ungradable else grade.value
  }

  /** The result recorded for a case. */
  function CaseOutcome(w: World, log: seq<Event>, c: Case, reply: Result<Execution, string>): CaseResult {
    match reply
    case Err(_) =>
      CaseResult(c.caseId, c.taskType, c.difficulty, PipelineError, Ungradable, None, None,
                 Some("pipeline_adapter_exception"))
    case Ok(e) =>
      if e.workspace.None? then
        var category := if e.failureCategory.None? || e.failureCategory.value == "" then
                          Some("candidate_workspace_missing") else e.failureCategory;
        CaseResult(c.caseId, c.taskType, c.difficulty, e.gateOutcome, Ungradable, e.runId, e.manifestSha256, category)
      else
        CaseResult(c.caseId, c.taskType, c.difficulty, e.gateOutcome,
                   Grade(w, log + CaseEvents(c, reply), c, e.workspace.value),
                   e.runId, e.manifestSha256, e.failureCategory)
  }

  /** The log and the results of the first cases of a campaign. */
  function Transcript(w: World, cases: seq<Case>): (r: (seq<Event>, seq<CaseResult>))
    ensures |r.1| == |cases|
  {
    if cases == [] then ([], [])
    else
      var front, c := cases[..|cases| - 1], cases[|cases| - 1];
      var (log, results) := Transcript(w, front);
      var reply := w.pipeline(Requests(cases));
      (log + CaseEvents(c, reply), results + [CaseOutcome(w, log, c, reply)])
  }

  // ----- Implementation -------------------------------------------------------

  /** `EvaluationCampaignRunner.run`. */
  method Run(w: World, lib: Wilson.Library, benchmark: Benchmark, confidence: real, policy: Readiness.Policy)
    returns (report: Option<Report>, log: seq<Event>)
    requires 0.0 < confidence < 1.0
    ensures report.None? <==> !benchmark.validated
    ensures report.None? ==> log == []
    ensures report.Some? ==>
              && (log, report.value.results) == Transcript(w, benchmark.cases)
              && Describes(lib, report.value.results, confidence, report.value.metrics)
              && report.value.readiness == Readiness.Decided(report.value.metrics, policy)
  {
    log := [];
    if !benchmark.validated {
      return None, log;
    }
    var results: seq<CaseResult> := [];
    var asked: seq<Request> := [];
    for i := 0 to |benchmark.cases|
      invariant asked == Requests(benchmark.cases[..i])
      invariant (log, results) == Transcript(w, benchmark.cases[..i])
    {
      var c := benchmark.cases[i];
      ghost var done := benchmark.cases[..i + 1];
      assert done[..i] == benchmark.cases[..i];
      ghost var start := log;
      asked := asked + [Ask(c)];
      assert asked == Requests(done);
      var execution := w.pipeline(asked);
      log := log + [Executed(Ask(c))];
      if execution.Err? {
        results := results + [CaseResult(c.caseId, c.taskType, c.difficulty, PipelineError, Ungradable,
                                         None, None, Some("pipeline_adapter_exception"))];
        continue;
      }
      var e := execution.value;
      if e.workspace.None? {
        var category := e.failureCategory;
        if category.None? || category.value == "" {
          category := Some("candidate_workspace_missing");
        }
        results := results + [CaseResult(c.caseId, c.taskType, c.difficulty, e.gateOutcome, Ungradable,
                                         e.runId, e.manifestSha256, category)];
        continue;
      }
      log := log + [OracleRead(c)];
      assert log == start + CaseEvents(c, execution);
      var oracleOutcome := Ungradable;
      var oracle := w.load(log, c);
      if oracle.Ok? {
        var grade := w.grade(log, e.workspace.value, oracle.value);
        if grade.Ok? {
          oracleOutcome := grade.value;
        }
      }
      results := results + [CaseResult(c.caseId, c.taskType, c.difficulty, e.gateOutcome, oracleOutcome,
                                       e.runId, e.manifestSha256, e.failureCategory)];
    }
    assert benchmark.cases[..|benchmark.cases|] == benchmark.cases;
    MetricsDescribeCampaign(lib, results, confidence);
    var metrics := Calculate(lib, results, confidence).value;
    var readiness := Readiness.Evaluate(metrics, policy);
    report := Some(Report(results, metrics, readiness));
  }

  // ----- Properties -----------------------------------------------------------

  /** One result per case, in order, under the case's own name. */
  lemma {:induction false} OneResultPerCase(w: World, cases: seq<Case>, i: nat)
    requires i < |cases|
    ensures
      var r, reply := Transcript(w, cases).1[i], w.pipeline(Requests(cases[..i + 1]));
      && r.caseId == cases[i].caseId && r.taskType == cases[i].taskType && r.difficulty == cases[i].difficulty
      && r.gateOutcome == (if reply.Ok? then reply.value.gateOutcome else PipelineError)
      && (!r.oracleOutcome.Ungradable? ==> reply.Ok? && reply.value.workspace.Some?)
  {
    if i < |cases| - 1 {
      OneResultPerCase(w, cases[..|cases| - 1], i);
      assert cases[..|cases| - 1][..i + 1] == cases[..i + 1];
    } else {
      assert cases[..i + 1] == cases;
    }
  }

  /** The log after the first `n` cases. */
  function LogAfter(w: World, cases: seq<Case>, n: nat): seq<Event>
    requires n <= |cases|
  {
    Transcript(w, cases[..n]).0
  }

  /** What a result records of its case: the pipeline's own outcome, run and category if it
      answered, with the two default categories, and the verdict of grading on the workspace it
      left, given that case's oracle. UNGRADABLE without a workspace, and when the oracle
      cannot be loaded or grading fails. */
  lemma {:induction false} ResultsMean(w: World, cases: seq<Case>, i: nat)
    requires i < |cases|
    ensures
      var r, c, reply := Transcript(w, cases).1[i], cases[i], w.pipeline(Requests(cases[..i + 1]));
      match reply
      case Err(_) =>
        && r.gateOutcome == PipelineError && r.oracleOutcome == Ungradable
        && r.runId == None && r.manifestSha256 == None && r.failureCategory == Some("pipeline_adapter_exception")
      case Ok(e) =>
        && r.gateOutcome == e.gateOutcome && r.runId == e.runId && r.manifestSha256 == e.manifestSha256
        && match e.workspace
           case None =>
             && r.oracleOutcome == Ungradable
             && r.failureCategory
                == (if e.failureCategory.None? || e.failureCategory == Some("")
                    then Some("candidate_workspace_missing") else e.failureCategory)
           case Some(workspace) =>
             && r.failureCategory == e.failureCategory
             && var log := LogAfter(w, cases, i + 1);
                match w.load(log, c)
                case Err(_) => r.oracleOutcome == Ungradable
                case Ok(oracle) =>
                  match w.grade(log, workspace, oracle)
                  case Err(_) => r.oracleOutcome == Ungradable
                  case Ok(verdict) => r.oracleOutcome == verdict
  {
    if i < |cases| - 1 {
      var front := cases[..|cases| - 1];
      ResultsMean(w, front, i);
      assert front[..i + 1] == cases[..i + 1];
    } else {
      assert cases[..i + 1] == cases;
    }
  }

  /** Each case adds its pipeline call to the log, and the reading of its oracle if a
      workspace was left. */
  lemma LogGrows(w: World, cases: seq<Case>, i: nat)
    requires i < |cases|
    ensures
      var reply, c := w.pipeline(Requests(cases[..i + 1])), cases[i];
      var call := Executed(Request(c.caseId, c.taskPayloadUri, c.startingRepositoryUri, c.startingCommit));
      LogAfter(w, cases, i + 1) == LogAfter(w, cases, i)
        + if reply.Ok? && reply.value.workspace.Some? then [call, OracleRead(c)] else [call]
  {
    assert cases[..i + 1][..i] == cases[..i];
  }

  function Calls(log: seq<Event>): seq<Request> {
    if log == [] then []
    else
      var last := log[|log| - 1];
      Calls(log[..|log| - 1]) + (if last.Executed? then [last.request] else [])
  }

  lemma CallsThen(log: seq<Event>, e: Event)
    ensures Calls(log + [e]) == Calls(log) + (if e.Executed? then [e.request] else [])
  {
    assert (log + [e])[..|log|] == log;
  }

  lemma CallsOfCase(log: seq<Event>, c: Case, reply: Result<Execution, string>)
    ensures Calls(log + CaseEvents(c, reply)) == Calls(log) + [Ask(c)]
  {
    CallsThen(log, Executed(Ask(c)));
    CallsThen(log + [Executed(Ask(c))], OracleRead(c));
    assert log + [Executed(Ask(c)), OracleRead(c)] == log + [Executed(Ask(c))] + [OracleRead(c)];
  }

  /** The pipeline is called once per case, in order, and told nothing else. */
  lemma {:induction false} OneCallPerCase(w: World, cases: seq<Case>)
    ensures Calls(Transcript(w, cases).0) == Requests(cases)
  {
    if cases != [] {
      var front, c := cases[..|cases| - 1], cases[|cases| - 1];
      OneCallPerCase(w, front);
      CallsOfCase(Transcript(w, front).0, c, w.pipeline(Requests(cases)));
      RequestsThen(cases);
    }
  }

  lemma RequestsThen(cases: seq<Case>)
    requires cases != []
    ensures Requests(cases) == Requests(cases[..|cases| - 1]) + [Ask(cases[|cases| - 1])]
  {}

  /** Every oracle is read straight after the pipeline call of its own case. */
  lemma {:induction false} OracleReadAfterExecution(w: World, cases: seq<Case>, k: nat)
    requires k < |Transcript(w, cases).0| && Transcript(w, cases).0[k].OracleRead?
    ensures
      var log := Transcript(w, cases).0;
      k > 0 && log[k].of in cases && log[k - 1] == Executed(Ask(log[k].of))
  {
    var front, c := cases[..|cases| - 1], cases[|cases| - 1];
    if k < |Transcript(w, front).0| { OracleReadAfterExecution(w, front, k); }
  }

  /** The benchmarks differ at most in their oracles. */
  predicate SameTasks(cases: seq<Case>, others: seq<Case>) {
    && |cases| == |others|
    && forall i :: 0 <= i < |cases| ==>
         others[i] == cases[i].(oracleUri := others[i].oracleUri, oracleSha256 := others[i].oracleSha256)
  }

  lemma SameRequests(cases: seq<Case>, others: seq<Case>, n: nat)
    requires SameTasks(cases, others) && n <= |cases|
    ensures Requests(cases[..n]) == Requests(others[..n])
  {
    forall i | 0 <= i < n
      ensures Requests(cases[..n])[i] == Requests(others[..n])[i]
    {
      assert cases[..n][i] == cases[i] && others[..n][i] == others[i];
    }
  }

  lemma SameGateOutcome(w: World, v: World, cases: seq<Case>, others: seq<Case>, i: nat)
    requires SameTasks(cases, others) && w.pipeline == v.pipeline && i < |cases|
    ensures Transcript(w, cases).1[i].gateOutcome == Transcript(v, others).1[i].gateOutcome
  {
    OneResultPerCase(w, cases, i);
    OneResultPerCase(v, others, i);
    SameRequests(cases, others, i + 1);
  }

  lemma SameCalls(w: World, v: World, cases: seq<Case>, others: seq<Case>)
    requires SameTasks(cases, others)
    ensures Calls(Transcript(w, cases).0) == Calls(Transcript(v, others).0)
  {
    OneCallPerCase(w, cases);
    OneCallPerCase(v, others);
    SameRequests(cases, others, |cases|);
    assert cases[..|cases|] == cases;
    assert others[..|cases|] == others;
  }

  predicate SameGateOutcomes(results: seq<CaseResult>, others: seq<CaseResult>) {
    && |results| == |others|
    && forall i :: 0 <= i < |results| ==> results[i].gateOutcome == others[i].gateOutcome
  }

  /** Non-interference: whatever the oracles say, the pipeline receives the same calls
      and the gate outcomes are the same. */
  lemma OraclesDoNotInterfere(w: World, v: World, cases: seq<Case>, others: seq<Case>)
    requires SameTasks(cases, others) && w.pipeline == v.pipeline
    ensures Calls(Transcript(w, cases).0) == Calls(Transcript(v, others).0)
    ensures SameGateOutcomes(Transcript(w, cases).1, Transcript(v, others).1)
  {
    SameCalls(w, v, cases, others);
    var r, s := Transcript(w, cases).1, Transcript(v, others).1;
    forall i | 0 <= i < |cases|
      ensures r[i].gateOutcome == s[i].gateOutcome
    {
      SameGateOutcome(w, v, cases, others, i);
    }
  }
}
