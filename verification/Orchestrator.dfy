/** The control plane that drives one run.

    Every port, and the clock, is an adversary: a total function from the length
    of the log so far to an arbitrary answer, so quantifying over `Ports` covers
    every behaviour, including one that depends on everything that happened. */
module Orchestrator {
  import opened Prelude
  import opened RunModel
  import opened StateMachine
  import opened Budgets
  import opened RunHistory

  datatype Ports = Ports(
    clocks: nat -> real,
    executions: nat -> Result<ExecutionResult, string>,
    evaluations: nat -> Result<GateReply, string>,
    releases: nat -> Result<string, string>,
    runRecords: nat -> Result<string, string>,
    outcomeRecords: nat -> Result<string, string>)
  {
    function clock(n: nat): real { clocks(n) }
    function execute(n: nat): Result<ExecutionResult, string> { executions(n) }
    function evaluate(n: nat): Result<GateReply, string> { evaluations(n) }
    function release(n: nat): Result<string, string> { releases(n) }
    function recordRun(n: nat): Result<string, string> { runRecords(n) }
    function recordOutcome(n: nat): Result<string, string> { outcomeRecords(n) }
  }

  datatype Completion = Returned(outcome: RunOutcome) | Raised(failure: Failure)

  /** The local variables of one run, and the log an observer keeps of it. */
  datatype Session = Session(
    run: OrchestrationRun,
    references: seq<string>,
    reasonCodes: seq<string>,
    log: seq<Event>)

  function Resolve(registry: map<string, TaskDefinition>, taskType: string): Option<TaskDefinition> {
    if taskType in registry && registry[taskType].enabled then Some(registry[taskType]) else None
  }

  function OutcomeOf(s: Session, disposition: FinalDisposition, at: real): RunOutcome {
    RunOutcome(
      s.run.task.taskId, s.run.state, disposition,
      match s.run.candidate case Some(c) => Some(c.candidateId) case None => None,
      s.run.startedAt, at, s.run.usage,
      Dedup(s.references), Dedup(s.reasonCodes))
  }

  // ----- Invariants of a session --------------------------------------------

  /** The run held in memory is the one that was started, with the candidate it adopted. */
  predicate Identified(run: OrchestrationRun, h: History, adopted: bool) {
    && run.startedAt == h.startedAt && run.task == h.task
    && run.candidate == (if adopted then h.candidate else None)
  }

  /** The log is legal and the local variables are what it accounts for. */
  predicate Accounted(d: TaskDefinition, s: Session) {
    var h := HistoryOf(s.log);
    && AllLegal(d, s.log) && h.announced.None? && h.started
    && Identified(s.run, h, h.adopted)
    && Walk(s.run.transitions, s.run.state)
    && s.run.usage == h.usage
    && s.references == h.references
  }

  /** Additionally, the run held in memory is the last run that was recorded. */
  predicate Current(d: TaskDefinition, s: Session) {
    Accounted(d, s) && s.run.transitions == HistoryOf(s.log).saved
  }

  /** Additionally, no budget check has failed and no port has raised. */
  predicate Running(d: TaskDefinition, s: Session) {
    Current(d, s) && !HistoryOf(s.log).overrun && HistoryOf(s.log).raised.None?
  }

  /** Additionally, the executor did not claim success without a candidate. */
  predicate Underway(d: TaskDefinition, s: Session) {
    Running(d, s) && !CandidateMissing(HistoryOf(s.log))
  }

  /** Additionally, no reason code but the gate's was added yet. */
  predicate Synced(d: TaskDefinition, s: Session) {
    Underway(d, s) && s.reasonCodes == HistoryOf(s.log).gateCodes
  }

  /** `Synced`, but for a candidate that may be missing. */
  predicate Answering(d: TaskDefinition, s: Session) {
    Running(d, s) && s.reasonCodes == HistoryOf(s.log).gateCodes
  }

  /** Every reason code due so far was added. */
  predicate Coded(d: TaskDefinition, s: Session) {
    s.reasonCodes == CodesSoFar(d, HistoryOf(s.log))
  }

  /** What a handler may find: either nothing is ahead of the record, or the run
      has already reached a terminal state. */
  predicate Halted(d: TaskDefinition, s: Session) {
    Accounted(d, s) && (s.run.transitions == HistoryOf(s.log).saved || Terminal(s.run.state))
  }

  /** `s` just before a transition to `to`: the caller has already put the cycle
      on the ledger, or the candidate on the run and its reference on the list. */
  predicate Poised(d: TaskDefinition, s: Session, to: RunState, evidence: Option<string>) {
    var h := HistoryOf(s.log);
    && AllLegal(d, s.log) && h.announced.None? && h.started
    && Identified(s.run, h, h.adopted || to.CandidateAvailable?)
    && Warranted(d, h, to) && evidence == EvidenceFor(h, to)
    && Walk(s.run.transitions, s.run.state)
    && s.run.transitions == h.saved
    && s.run.usage == (if to.MoreEvidence?
                       then h.usage.(moreEvidenceCycles := h.usage.moreEvidenceCycles + 1) else h.usage)
    && s.references == h.references +
       (if to.CandidateAvailable? && evidence.Some? then [evidence.value] else [])
  }

  /** What two histories between which no component was called have in common. */
  predicate SameCalls(a: History, b: History) {
    && a.started == b.started && a.startedAt == b.startedAt && a.task == b.task && a.overrun == b.overrun
    && a.executions == b.executions && a.gateCalls == b.gateCalls && a.releases == b.releases
    && a.lastCall == b.lastCall && a.candidate == b.candidate && a.gateCodes == b.gateCodes
  }

  /** The last event is a record the evidence port refused. */
  predicate EndsInFailedRecord(log: seq<Event>) {
    log != [] &&
    var last := log[|log| - 1];
    (last.RunRecorded? && last.stored.Err?) || (last.OutcomeRecorded? && last.receipt.Err?)
  }

  predicate EndsInBrokenBudget(log: seq<Event>) {
    log != [] && log[|log| - 1].BudgetChecked? && !log[|log| - 1].passed
  }

  /** The log ends in the outcome that was recorded and returned. */
  predicate Reported(log: seq<Event>, o: RunOutcome) {
    && log != [] && log[|log| - 1].OutcomeRecorded?
    && var last := log[|log| - 1];
    && last.receipt.Ok?
    && o == last.outcome.(evidence := last.outcome.evidence + [last.receipt.value])
  }

  // ----- The steps of a run -------------------------------------------------

  method CheckBudget(d: TaskDefinition, ports: Ports, s: Session)
    returns (s': Session, passed: bool)
    requires Running(d, s)
    ensures s' == s.(log := s'.log) && Current(d, s') && |s'.log| == |s.log| + 1
    ensures HistoryOf(s'.log) == HistoryOf(s.log).(overrun := !passed)
    ensures passed == WithinBudget(d.budget, s.run.usage, ports.clock(|s.log|) - s.run.startedAt)
    ensures passed <==>
      && s.run.usage.executionAttempts <= d.budget.executionAttempts
      && s.run.usage.gateAttempts <= d.budget.gateAttempts
      && s.run.usage.inputTokens <= d.budget.inputTokens
      && s.run.usage.outputTokens <= d.budget.outputTokens
      && s.run.usage.llmRequests <= d.budget.llmRequests
      && ports.clock(|s.log|) - s.run.startedAt <= d.budget.elapsedSeconds
    ensures !passed ==> EndsInBrokenBudget(s'.log)
  {
    var elapsed := ports.clock(|s.log|) - s.run.startedAt;
    passed := WithinBudget(d.budget, s.run.usage, elapsed);
    s' := s.(log := Then(s.log, BudgetChecked(elapsed, passed)));
  }

  /** The log of a transition that was announced and then offered for recording. */
  function Announced(s: Session, to: RunState, at: real, evidence: Option<string>, stored: Result<string, string>)
    : (log: seq<Event>)
    requires to in Allowed(s.run.state)
    ensures |log| == |s.log| + 2 && !EndsInBrokenBudget(log) && (stored.Err? ==> EndsInFailedRecord(log))
  {
    Then(Then(s.log, Transitioned(StateTransition(s.run.state, to, at, evidence))),
         RunRecorded(Transition(s.run, to, at, evidence).value, stored))
  }

  /** The two events of a recorded transition are legal, and what they leave. */
  lemma RecordedTransition(
      d: TaskDefinition, s: Session, to: RunState, at: real, evidence: Option<string>,
      stored: Result<string, string>)
    requires to in Allowed(s.run.state) && Poised(d, s, to, evidence)
    ensures
      var updated := Transition(s.run, to, at, evidence).value;
      var log := Announced(s, to, at, evidence, stored);
      var h, h0 := HistoryOf(log), HistoryOf(s.log);
      && SameCalls(h, h0)
      && h.adopted == (h0.adopted || to.CandidateAvailable?)
      && h.raised == (if h0.raised.None? && stored.Err? then Some(stored.error) else h0.raised)
      && h.saved == (if stored.Ok? then updated.transitions else s.run.transitions)
      && (stored.Ok? ==> Current(d, s.(run := updated, references := s.references + [stored.value], log := log)))
      && (stored.Err? ==> Accounted(d, s.(run := updated, log := log)) && Current(d, s.(log := log)))
  {
    RecordedIsLegal(d, s, to, at, evidence, stored);
  }

  lemma RecordedIsLegal(
      d: TaskDefinition, s: Session, to: RunState, at: real, evidence: Option<string>,
      stored: Result<string, string>)
    requires to in Allowed(s.run.state) && Poised(d, s, to, evidence)
    ensures AllLegal(d, Announced(s, to, at, evidence, stored))
  {
    var h0 := HistoryOf(s.log);
    var step := StateTransition(s.run.state, to, at, evidence);
    var updated := Transition(s.run, to, at, evidence).value;
    var h1 := Advance(h0, Transitioned(step));
    assert Legal(d, h0, Transitioned(step));
    assert Legal(d, h1, RunRecorded(updated, stored));
  }

  lemma RecordedCodes(
      d: TaskDefinition, s: Session, to: RunState, at: real, evidence: Option<string>,
      stored: Result<string, string>)
    requires to in Allowed(s.run.state) && Poised(d, s, to, evidence)
    ensures to != ReadyForRelease || stored.Err? ==>
              OwnCode(d, HistoryOf(Announced(s, to, at, evidence, stored))) == OwnCode(d, HistoryOf(s.log))
  {
    RecordedTransition(d, s, to, at, evidence, stored);
    if to != ReadyForRelease {
      CodesAreKept(d, HistoryOf(s.log), HistoryOf(Announced(s, to, at, evidence, stored)),
                   StateTransition(s.run.state, to, at, evidence));
    }
  }

  /** Recording a state other than READY_FOR_RELEASE makes no reason code due. */
  lemma CodesAreKept(d: TaskDefinition, h: History, h': History, step: StateTransition)
    requires SameCalls(h, h') && (h'.saved == h.saved || h'.saved == h.saved + [step])
    requires Walk(h.saved, EndOf(h.saved)) && step.from == EndOf(h.saved)
    requires step.to in Allowed(step.from) && step.to != ReadyForRelease
    ensures OwnCode(d, h') == OwnCode(d, h)
  {
    assert ReachedRelease(h.saved) <==> EndOf(h.saved) == ReadyForRelease;
  }

  /** A transition the evidence port must confirm; if it does not, the caller
      keeps the run it had. */
  method TransitionAndRecord(
      d: TaskDefinition, ports: Ports, s: Session, to: RunState, evidence: Option<string>)
    returns (s': Session, failure: Option<Failure>)
    requires to in Allowed(s.run.state) && Poised(d, s, to, evidence)
    requires
      var h := HistoryOf(s.log);
      !h.overrun && h.raised.None? && !CandidateMissing(h)
    ensures SameCalls(HistoryOf(s'.log), HistoryOf(s.log)) && Current(d, s')
    ensures s'.reasonCodes == s.reasonCodes && |s'.log| == |s.log| + 2 && !EndsInBrokenBudget(s'.log)
    ensures to != ReadyForRelease || failure.Some? ==>
      OwnCode(d, HistoryOf(s'.log)) == OwnCode(d, HistoryOf(s.log))
    ensures HistoryOf(s'.log).adopted == (HistoryOf(s.log).adopted || to.CandidateAvailable?)
    ensures failure.None? <==> ports.recordRun(|s.log| + 1).Ok?
    ensures s.log <= s'.log && (failure.None? ==> s.references <= s'.references)
    ensures failure.None? ==>
      && Underway(d, s')
      && s'.run == s.run.(state := to, updatedAt := s'.run.updatedAt, transitions := s'.run.transitions)
    ensures failure.Some? ==>
      && s' == s.(log := s'.log) && failure.value.PortFailure?
      && HistoryOf(s'.log).raised == Some(failure.value.typeName)
  {
    var at := ports.clock(|s.log|);
    var updated := Transition(s.run, to, at, evidence).value;
    var stored := ports.recordRun(|s.log| + 1);
    RecordedTransition(d, s, to, at, evidence, stored);
    RecordedCodes(d, s, to, at, evidence, stored);
    s' := s.(log := Announced(s, to, at, evidence, stored));
    match stored {
      case Ok(reference) =>
        s' := s'.(run := updated, references := s'.references + [reference]);
        failure := None;
      case Err(name) =>
        failure := Some(PortFailure(name));
    }
  }

  /** What the outcome with this disposition may be built from. */
  predicate Reportable(d: TaskDefinition, s: Session, disposition: FinalDisposition) {
    var h := HistoryOf(s.log);
    && Halted(d, s)
    && Agrees(disposition, s.run.state)
    && (disposition == FinallyBudgetExceeded <==> h.overrun)
    && (disposition == FinallyReleased ==> Deployed(h.lastCall))
    && (disposition == FinallyPipelineError ==>
          h.raised.Some? || CandidateMissing(h) || Withheld(d, h) || NotPermitted(d, h))
    && (disposition != FinallyPipelineError ==> s.run.transitions == h.saved)
    && s.reasonCodes == Codes(d, h, disposition)
  }

  lemma ConclusionIsLegal(d: TaskDefinition, s: Session, disposition: FinalDisposition, at: real,
                          receipt: Result<string, string>)
    requires Reportable(d, s, disposition)
    ensures
      var e := OutcomeRecorded(OutcomeOf(s, disposition, at), receipt);
      && AllLegal(d, Then(s.log, e))
      && HistoryOf(Then(s.log, e)) == HistoryOf(s.log).(raised := FirstRaised(HistoryOf(s.log), e))
  {
    var o := OutcomeOf(s, disposition, at);
    assert Legal(d, HistoryOf(s.log), OutcomeRecorded(o, receipt));
  }

  /** An outcome whose record fails stops the run with that failure. */
  lemma FailedReportStops(d: TaskDefinition, s: Session, log: seq<Event>, name: string)
    requires Coded(d, s) && !HistoryOf(s.log).overrun && !CandidateMissing(HistoryOf(s.log))
    requires Halted(d, s.(log := log)) && HistoryOf(log) == HistoryOf(s.log).(raised := Some(name))
    ensures Stopped(d, s.(log := log), PortFailure(name))
  {}

  /** Builds, records and returns the outcome. */
  method Conclude(d: TaskDefinition, ports: Ports, s: Session, disposition: FinalDisposition)
    returns (s': Session, r: Result<RunOutcome, Failure>)
    requires Reportable(d, s, disposition)
    ensures Halted(d, s') && s' == s.(log := s'.log)
    ensures HistoryOf(s'.log) == HistoryOf(s.log).(raised := HistoryOf(s'.log).raised)
    ensures r.Ok? ==>
      && Reported(s'.log, r.value) && r.value.disposition == disposition
      && r.value.finalState == s.run.state && r.value.reasonCodes == Dedup(s.reasonCodes)
      && r.value.usage == s.run.usage && r.value.taskId == s.run.task.taskId
      && r.value.candidateId == (match s.run.candidate case Some(c) => Some(c.candidateId) case None => None)
      && forall reference :: reference in s.references ==> reference in r.value.evidence
    ensures r.Ok? <==> ports.recordOutcome(|s.log|).Ok?
    ensures s.log <= s'.log
    ensures r.Ok? ==> HistoryOf(s'.log) == HistoryOf(s.log)
    ensures r.Err? ==>
      && r.error.PortFailure? && ports.recordOutcome(|s.log|).Err? && EndsInFailedRecord(s'.log)
      && (HistoryOf(s.log).raised.None? ==> HistoryOf(s'.log).raised == Some(r.error.typeName))
    ensures !EndsInBrokenBudget(s'.log)
  {
    var o := OutcomeOf(s, disposition, ports.clock(|s.log|));
    var receipt := ports.recordOutcome(|s.log|);
    ConclusionIsLegal(d, s, disposition, o.completedAt, receipt);
    s' := s.(log := Then(s.log, OutcomeRecorded(o, receipt)));
    match receipt {
      case Ok(reference) => r := Ok(o.(evidence := o.evidence + [reference]));
      case Err(name) => r := Err(PortFailure(name));
    }
  }

  // ----- The run ------------------------------------------------------------

  /** Ports under which nothing ever goes wrong, no limit other than the number
      of gate attempts is ever reached, and the gate always asks for more. */
  ghost predicate Insistent(d: TaskDefinition, task: TaskRequest, ports: Ports) {
    && Permitted(d, task)
    && d.budget.executionAttempts >= 1
    && forall i: nat :: CalmAt(d, ports, i)
  }

  /** What such ports answer at one point of the log. */
  predicate CalmAt(d: TaskDefinition, ports: Ports, i: nat) {
    && ports.recordRun(i).Ok? && ports.recordOutcome(i).Ok?
    && ports.clock(i) - ports.clock(0) <= d.budget.elapsedSeconds
    && AffordablySucceeds(d, ports.execute(i))
    && AsksForMore(ports.evaluate(i))
  }

  predicate Affordable(d: TaskDefinition, reply: Result<ExecutionResult, string>) {
    reply.Ok? && WithinLedger(d.budget, AddExecutionUsage(EMPTY_LEDGER, reply.value.consumed))
  }

  predicate AffordablySucceeds(d: TaskDefinition, reply: Result<ExecutionResult, string>) {
    Affordable(d, reply) && reply.value.succeeded && reply.value.candidate.Some?
  }

  predicate AsksForMore(reply: Result<GateReply, string>) {
    && reply.Ok? && reply.value.disposition == GateMoreEvidence
    && reply.value.consumed == Consumption(0, 0, 0)
  }

  /** How the guarded part of a run may end by an exception. */
  predicate Stopped(d: TaskDefinition, s: Session, f: Failure) {
    var h := HistoryOf(s.log);
    && Halted(d, s) && Coded(d, s)
    && (f == BudgetOverrun <==> h.overrun)
    && match f
       case BudgetOverrun =>
         && Current(d, s) && EndsInBrokenBudget(s.log)
         && s.run.state in {Ready, ExecutingChange, CandidateAvailable, Gating, MoreEvidence}
         && (s.run.state in {Ready, CandidateAvailable} ==> WithinLedger(d.budget, s.run.usage))
       case PortFailure(name) => h.raised == Some(name) && !CandidateMissing(h)
       case OrchestratorFailure =>
         && h.raised.None? && !Ruled(h.lastCall, GatePass)
         && (CandidateMissing(h) || (s.run.state == Validating && NotPermitted(d, h)))
       case _ => false
  }

  /** How it may end by returning. */
  predicate Closed(d: TaskDefinition, s: Session, o: RunOutcome) {
    Halted(d, s) && Reported(s.log, o) && o.disposition != FinallyBudgetExceeded
  }

  predicate GatedAsOftenAsAllowed(d: TaskDefinition, s: Session) {
    HistoryOf(s.log).gateCalls == MinNat(d.maximumMoreEvidenceCycles, d.budget.gateAttempts) + 1
  }

  /** A call that raises leaves everything but the call itself as it was. */
  lemma RaisedCall(d: TaskDefinition, h: History, e: Event, name: string)
    requires e.Call?() && Exception(e) == Some(name) && h.raised.None? && (h.adopted ==> !e.ChangeExecuted?)
    ensures
      var next := Advance(h, e);
      && next == h.(raised := Some(name), executions := next.executions, gateCalls := next.gateCalls,
                    releases := next.releases, lastCall := Some(e), candidate := next.candidate)
      && (h.adopted ==> next.candidate == h.candidate) && OwnCode(d, next).None?
  {
    assert SumUsage(h.usage, EMPTY_LEDGER) == h.usage;
  }

  /** A component call that raises stops the run with its exception. */
  method Raise(d: TaskDefinition, s0: Session, e: Event, name: string) returns (s: Session)
    requires Synced(d, s0) && Legal(d, HistoryOf(s0.log), e) && e.Call?() && Exception(e) == Some(name)
    requires HistoryOf(s0.log).adopted ==> !e.ChangeExecuted?
    ensures s == s0.(log := s.log) && |s.log| == |s0.log| + 1 && s0.log <= s.log && s.log[|s0.log|] == e
    ensures Stopped(d, s, PortFailure(name))
  {
    RaisedCall(d, HistoryOf(s0.log), e, name);
    s := s0.(log := Then(s0.log, e));
  }

  /** The gate may be called for `candidate`: no call has raised, no code of the
      orchestrator's own is due, and the ledger is inside its ceilings. */
  predicate Gateable(d: TaskDefinition, s: Session, candidate: CandidatePatch, cycle: nat) {
    var h := HistoryOf(s.log);
    && cycle == h.gateCalls == h.usage.gateAttempts == h.usage.moreEvidenceCycles
    && h.releases == 0 && h.candidate == Some(candidate) && h.adopted
    && (h.lastCall.Some? ==> !h.lastCall.value.Raised?())
    && OwnCode(d, h).None? && WithinLedger(d.budget, s.run.usage)
  }

  /** `s` after a gate call that answered `reply`. */
  function Evaluated(s: Session, candidate: CandidatePatch, cycle: nat, reply: GateReply): Session {
    Session(
      s.run.(usage := AddGateUsage(s.run.usage, reply.consumed)),
      s.references + [reply.evidenceReference],
      s.reasonCodes + reply.reasonCodes,
      Then(s.log, GateEvaluated(candidate, cycle, Ok(reply))))
  }

  predicate JustGated(s: Session, candidate: CandidatePatch, cycle: nat, reply: GateReply) {
    var h := HistoryOf(s.log);
    && cycle + 1 == h.gateCalls == h.usage.gateAttempts && h.usage.moreEvidenceCycles == cycle
    && h.releases == 0 && h.candidate == Some(candidate) && h.adopted
    && h.lastCall == Some(GateEvaluated(candidate, cycle, Ok(reply)))
  }

  lemma EvaluationIsLegal(d: TaskDefinition, s: Session, candidate: CandidatePatch, cycle: nat, reply: GateReply)
    requires Synced(d, s) && Gateable(d, s, candidate, cycle) && s.run.state == Gating
    requires cycle <= d.maximumMoreEvidenceCycles
    ensures Synced(d, Evaluated(s, candidate, cycle, reply))
    ensures JustGated(Evaluated(s, candidate, cycle, reply), candidate, cycle, reply)
  {
    assert Legal(d, HistoryOf(s.log), GateEvaluated(candidate, cycle, Ok(reply)));
  }

  /** The clock shows more than the permitted time when the log has length `i`. */
  predicate Late(d: TaskDefinition, ports: Ports, i: nat) {
    ports.clock(i) - ports.clock(0) > d.budget.elapsedSeconds
  }

  /** Checks the budget and enters a state that announces a call. */
  method CheckAndEnter(d: TaskDefinition, ports: Ports, s0: Session, to: RunState)
    returns (s: Session, failure: Option<Failure>)
    requires Synced(d, s0) && to in Allowed(s0.run.state) && to in {ExecutingChange, Gating}
    requires OwnCode(d, HistoryOf(s0.log)).None? && WithinLedger(d.budget, s0.run.usage)
    requires s0.run.startedAt == ports.clock(0)
    ensures s.run.startedAt == s0.run.startedAt && s.run.task == s0.run.task && s.run.usage == s0.run.usage
    ensures failure.Some? ==> Stopped(d, s, failure.value)
    ensures failure == Some(BudgetOverrun) <==> Late(d, ports, |s0.log|)
    ensures failure == Some(BudgetOverrun) ==> s.run == s0.run
    ensures failure.None? ==>
      && Synced(d, s) && s.run.state == to && |s.log| == |s0.log| + 3
      && SameCalls(HistoryOf(s.log), HistoryOf(s0.log)) && HistoryOf(s.log).adopted == HistoryOf(s0.log).adopted
      && OwnCode(d, HistoryOf(s.log)) == OwnCode(d, HistoryOf(s0.log))
    ensures HistoryOf(s.log).gateCalls == HistoryOf(s0.log).gateCalls
    ensures failure.None? <==> !Late(d, ports, |s0.log|) && ports.recordRun(|s0.log| + 2).Ok?
  {
    var passed;
    s, passed := CheckBudget(d, ports, s0);
    if !passed { return s, Some(BudgetOverrun); }
    MayMove(d, s, to, None);
    s, failure := TransitionAndRecord(d, ports, s, to, None);
  }

  /** The call of the gate, and what it puts on the ledger and the lists. */
  method CallGate(d: TaskDefinition, ports: Ports, s0: Session, candidate: CandidatePatch, cycle: nat)
    returns (s: Session, verdict: Result<GateReply, Failure>)
    requires Synced(d, s0) && Gateable(d, s0, candidate, cycle) && s0.run.state == Gating
    requires cycle <= d.maximumMoreEvidenceCycles
    ensures match ports.evaluate(|s0.log|)
            case Err(name) => verdict == Err(PortFailure(name))
            case Ok(reply) => verdict == Ok(reply) && s == Evaluated(s0, candidate, cycle, reply)
    ensures s.run.startedAt == s0.run.startedAt && s.run.task == s0.run.task && |s.log| == |s0.log| + 1
    ensures verdict.Err? ==> Stopped(d, s, verdict.error)
    ensures verdict.Ok? ==> Synced(d, s) && JustGated(s, candidate, cycle, verdict.value)
  {
    var gate := ports.evaluate(|s0.log|);
    var e := GateEvaluated(candidate, cycle, gate);
    if gate.Err? {
      s := Raise(d, s0, e, gate.error);
      return s, Err(PortFailure(gate.error));
    }
    EvaluationIsLegal(d, s0, candidate, cycle, gate.value);
    s, verdict := Evaluated(s0, candidate, cycle, gate.value), Ok(gate.value);
  }

  /** The gate, called when the log has length `n` and this was used, answers affordably and
      in time. */
  predicate AnswersInTime(d: TaskDefinition, ports: Ports, n: nat, used: UsageLedger) {
    && ports.evaluate(n).Ok? && !Late(d, ports, n + 1)
    && WithinLedger(d.budget, AddGateUsage(used, ports.evaluate(n).value.consumed))
  }

  /** A turn of the loop that begins when the log has length `n` reaches a verdict: the
      check before is passed, GATING is recorded, and the gate answers in time. */
  predicate ReachesVerdict(d: TaskDefinition, ports: Ports, n: nat, used: UsageLedger) {
    !Late(d, ports, n) && ports.recordRun(n + 2).Ok? && AnswersInTime(d, ports, n + 3, used)
  }

  /** One evaluation, and the budget check that follows it. */
  method Consult(
      d: TaskDefinition, ghost task: TaskRequest, ports: Ports, s0: Session, candidate: CandidatePatch, cycle: nat)
    returns (s: Session, verdict: Result<GateReply, Failure>)
    requires Synced(d, s0) && Gateable(d, s0, candidate, cycle) && s0.run.state == Gating
    requires cycle <= d.maximumMoreEvidenceCycles && s0.run.startedAt == ports.clock(0)
    ensures s.run.startedAt == s0.run.startedAt && s.run.task == s0.run.task
    ensures verdict.Err? ==> Stopped(d, s, verdict.error)
    ensures verdict == Err(BudgetOverrun) ==> s.run.state == Gating
    ensures verdict.Ok? ==>
      && Synced(d, s) && s.run.state == Gating
      && JustGated(s, candidate, cycle, verdict.value)
      && WithinLedger(d.budget, s.run.usage)
    ensures verdict.Ok? <==> AnswersInTime(d, ports, |s0.log|, s0.run.usage)
    ensures verdict.Ok? ==>
      && ports.evaluate(|s0.log|) == Ok(verdict.value) && |s.log| == |s0.log| + 2
      && s.run == s0.run.(usage := AddGateUsage(s0.run.usage, verdict.value.consumed))
      && verdict.value.evidenceReference in s.references
      && forall code :: code in verdict.value.reasonCodes ==> code in s.reasonCodes
    ensures Insistent(d, task, ports) ==> AskedAgain(d, s, cycle, verdict)
  {
    ghost var calm := Insistent(d, task, ports);
    assert calm ==> CalmAt(d, ports, |s0.log|) && CalmAt(d, ports, |s0.log| + 1);
    s, verdict := CallGate(d, ports, s0, candidate, cycle);
    if verdict.Err? { return; }
    assert calm ==> (WithinLedger(d.budget, s.run.usage) <==> cycle + 1 <= d.budget.gateAttempts);
    var passed;
    s, passed := CheckBudget(d, ports, s);
    if !passed { verdict := Err(BudgetOverrun); }
  }

  /** What an evaluation by ports that always ask for more leaves. */
  predicate AskedAgain(d: TaskDefinition, s: Session, cycle: nat, verdict: Result<GateReply, Failure>) {
    && HistoryOf(s.log).gateCalls == cycle + 1 && s.run.state == Gating
    && (cycle + 1 > d.budget.gateAttempts ==> verdict == Err(BudgetOverrun))
    && (cycle + 1 <= d.budget.gateAttempts ==> verdict.Ok? && verdict.value.disposition == GateMoreEvidence)
  }

  /** One evaluation, with the budget checked before and after it. */
  method GateOnce(
      d: TaskDefinition, ghost task: TaskRequest, ports: Ports, s0: Session, candidate: CandidatePatch, cycle: nat)
    returns (s: Session, verdict: Result<GateReply, Failure>)
    requires Synced(d, s0) && s0.run.state in {CandidateAvailable, MoreEvidence}
    requires Gateable(d, s0, candidate, cycle) && cycle <= d.maximumMoreEvidenceCycles
    requires s0.run.startedAt == ports.clock(0)
    ensures s.run.startedAt == s0.run.startedAt && s.run.task == s0.run.task
    ensures verdict.Err? ==> Stopped(d, s, verdict.error)
    ensures verdict == Err(BudgetOverrun) ==>
      if Late(d, ports, |s0.log|) then s.run.state == s0.run.state else s.run.state == Gating
    ensures Late(d, ports, |s0.log|) ==> verdict == Err(BudgetOverrun)
    ensures verdict.Ok? <==> ReachesVerdict(d, ports, |s0.log|, s0.run.usage)
    ensures verdict.Ok? ==>
      && ports.evaluate(|s0.log| + 3) == Ok(verdict.value) && |s.log| == |s0.log| + 5
      && s.run.usage == AddGateUsage(s0.run.usage, verdict.value.consumed) && s.run.candidate == s0.run.candidate
      && s.run.task == s0.run.task && verdict.value.evidenceReference in s.references
      && forall code :: code in verdict.value.reasonCodes ==> code in s.reasonCodes
    ensures verdict.Ok? ==>
      && Synced(d, s) && s.run.state == Gating
      && JustGated(s, candidate, cycle, verdict.value)
      && WithinLedger(d.budget, s.run.usage)
    ensures Insistent(d, task, ports) ==> AskedAgain(d, s, cycle, verdict)
  {
    assert Insistent(d, task, ports) ==> CalmAt(d, ports, |s0.log|) && CalmAt(d, ports, |s0.log| + 2);
    var failure;
    s, failure := CheckAndEnter(d, ports, s0, Gating);
    if failure.Some? { return s, Err(failure.value); }
    s, verdict := Consult(d, task, ports, s, candidate, cycle);
  }

  /** A transition whose record fails stops the run with that failure. */
  lemma FailedRecordStops(d: TaskDefinition, s: Session, log: seq<Event>, name: string)
    requires Coded(d, s) && !HistoryOf(s.log).overrun && !CandidateMissing(HistoryOf(s.log))
    requires Current(d, s.(log := log)) && SameCalls(HistoryOf(log), HistoryOf(s.log))
    requires OwnCode(d, HistoryOf(log)) == OwnCode(d, HistoryOf(s.log)) && HistoryOf(log).raised == Some(name)
    ensures Stopped(d, s.(log := log), PortFailure(name))
  {}

  /** A recorded final state is what its outcome may be built from. */
  lemma FinalStateIsReportable(d: TaskDefinition, s: Session, disposition: FinalDisposition)
    requires Underway(d, s) && Coded(d, s)
    requires Ends(s.run.state, disposition)
    requires disposition == FinallyReleased ==> Deployed(HistoryOf(s.log).lastCall)
    ensures Reportable(d, s, disposition)
  {}

  /** The dispositions that follow from an answer, with the states they are reported in. */
  predicate Ends(to: RunState, disposition: FinalDisposition) {
    Agrees(disposition, to) && disposition in {FinallyReleased, FinallyRejected, FinallyHumanReview}
  }

  /** A session in step with its record may take any warranted transition that neither
      adopts a candidate nor counts a cycle. */
  lemma MayMove(d: TaskDefinition, s: Session, to: RunState, evidence: Option<string>)
    requires Current(d, s) && Warranted(d, HistoryOf(s.log), to) && !to.CandidateAvailable? && !to.MoreEvidence?
    requires evidence == EvidenceFor(HistoryOf(s.log), to)
    ensures Poised(d, s, to, evidence)
  {}

  /** Enters a terminal state, records it and reports. */
  method Finish(
      d: TaskDefinition, ports: Ports, s0: Session, to: RunState, evidence: Option<string>,
      disposition: FinalDisposition)
    returns (s: Session, tried: Result<RunOutcome, Failure>)
    requires Underway(d, s0) && Coded(d, s0)
    requires to in Allowed(s0.run.state) && Warranted(d, HistoryOf(s0.log), to)
    requires evidence == EvidenceFor(HistoryOf(s0.log), to)
    requires Ends(to, disposition)
    ensures tried.Ok? ==> Closed(d, s, tried.value) && tried.value.disposition == disposition
    ensures tried.Err? ==> Stopped(d, s, tried.error) && tried.error.PortFailure?
    ensures tried.Ok? <==> ports.recordRun(|s0.log| + 1).Ok? && ports.recordOutcome(|s0.log| + 2).Ok?
    ensures tried.Ok? ==> Tells(tried.value, s0, to)
    ensures s0.log <= s.log
    ensures s.run.startedAt == s0.run.startedAt && s.run.task == s0.run.task
    ensures SameCalls(HistoryOf(s.log), HistoryOf(s0.log))
  {
    var failure;
    MayMove(d, s0, to, evidence);
    s, failure := TransitionAndRecord(d, ports, s0, to, evidence);
    if failure.Some? {
      FailedRecordStops(d, s0, s.log, failure.value.typeName);
      return s, Err(failure.value);
    }
    FinalStateIsReportable(d, s, disposition);
    ghost var recorded := s;
    s, tried := Report(d, ports, s, disposition);
    if tried.Ok? { TellsEarlier(tried.value, recorded, s0, to); }
  }

  /** An outcome in this state tells what the session holds. */
  predicate Tells(o: RunOutcome, s: Session, state: RunState) {
    && o.finalState == state && o.usage == s.run.usage && o.taskId == s.run.task.taskId
    && o.candidateId == (match s.run.candidate case Some(c) => Some(c.candidateId) case None => None)
    && (forall reference :: reference in s.references ==> reference in o.evidence)
    && forall code :: code in s.reasonCodes ==> code in o.reasonCodes
  }

  /** What an outcome tells of a session it tells of an earlier one with the same run. */
  lemma TellsEarlier(o: RunOutcome, s: Session, s0: Session, state: RunState)
    requires Tells(o, s, state) && s0.references <= s.references && s0.reasonCodes <= s.reasonCodes
    requires s.run.usage == s0.run.usage && s.run.candidate == s0.run.candidate && s.run.task == s0.run.task
    ensures Tells(o, s0, state)
  {}

  /** Reports while no port has raised and every reason code due was added. */
  method Report(d: TaskDefinition, ports: Ports, s0: Session, disposition: FinalDisposition)
    returns (s: Session, tried: Result<RunOutcome, Failure>)
    requires Reportable(d, s0, disposition) && Underway(d, s0) && Coded(d, s0)
    ensures tried.Ok? ==> Closed(d, s, tried.value) && tried.value.disposition == disposition
    ensures tried.Err? ==> Stopped(d, s, tried.error) && tried.error.PortFailure?
    ensures tried.Ok? <==> ports.recordOutcome(|s0.log|).Ok?
    ensures tried.Ok? ==> Tells(tried.value, s0, s0.run.state)
    ensures s0.log <= s.log
    ensures s.run.startedAt == s0.run.startedAt && s.run.task == s0.run.task
    ensures SameCalls(HistoryOf(s.log), HistoryOf(s0.log))
  {
    s, tried := Conclude(d, ports, s0, disposition);
    if tried.Err? { FailedReportStops(d, s0, s.log, tried.error.typeName); }
  }

  /** Puts another evidence cycle on the ledger and records MORE_EVIDENCE. */
  method GoRound(
      d: TaskDefinition, ghost task: TaskRequest, ports: Ports, s0: Session, candidate: CandidatePatch,
      cycle: nat, reply: GateReply)
    returns (s: Session, failure: Option<Failure>)
    requires Synced(d, s0) && s0.run.state == Gating && cycle < d.maximumMoreEvidenceCycles
    requires JustGated(s0, candidate, cycle, reply) && reply.disposition == GateMoreEvidence
    requires WithinLedger(d.budget, s0.run.usage)
    ensures s.run.startedAt == s0.run.startedAt && s.run.task == s0.run.task
    ensures failure.None? ==> Synced(d, s) && s.run.state == MoreEvidence && Gateable(d, s, candidate, cycle + 1)
    ensures failure.None? <==> ports.recordRun(|s0.log| + 1).Ok?
    ensures failure.None? ==>
      && |s.log| == |s0.log| + 2 && s.run.candidate == s0.run.candidate
      && s.run.usage == s0.run.usage.(moreEvidenceCycles := cycle + 1)
    ensures failure.Some? ==> Stopped(d, s, failure.value) && failure.value.PortFailure? && !Insistent(d, task, ports)
  {
    s := s0.(run := s0.run.(usage := s0.run.usage.(moreEvidenceCycles := cycle + 1)));
    assert Insistent(d, task, ports) ==> CalmAt(d, ports, |s.log| + 1);
    s, failure := TransitionAndRecord(d, ports, s, MoreEvidence, Some(reply.evidenceReference));
  }

  /** The limit of evidence cycles hands the candidate to a human. */
  method HandOver(
      d: TaskDefinition, ghost task: TaskRequest, ports: Ports, s0: Session, candidate: CandidatePatch,
      cycle: nat, reply: GateReply)
    returns (s: Session, tried: Result<RunOutcome, Failure>)
    requires Synced(d, s0) && s0.run.state == Gating && cycle >= d.maximumMoreEvidenceCycles
    requires JustGated(s0, candidate, cycle, reply) && reply.disposition == GateMoreEvidence
    ensures s.run.startedAt == s0.run.startedAt && s.run.task == s0.run.task && SameCalls(HistoryOf(s.log), HistoryOf(s0.log))
    ensures tried.Ok? ==> Closed(d, s, tried.value) && tried.value.disposition == FinallyHumanReview
    ensures tried.Err? ==> Stopped(d, s, tried.error) && tried.error.PortFailure? && !Insistent(d, task, ports)
    ensures Concluded(d, ports, |s0.log|, candidate, reply, tried, s.log)
    ensures tried.Ok? ==> Tells(tried.value, s0, tried.value.finalState)
  {
    s := s0.(reasonCodes := s0.reasonCodes + ["MORE_EVIDENCE_LIMIT_REACHED"]);
    assert Insistent(d, task, ports) ==> CalmAt(d, ports, |s.log| + 1) && CalmAt(d, ports, |s.log| + 2);
    ghost var coded := s;
    s, tried := Finish(d, ports, s, HumanReviewRequired, Some(reply.evidenceReference), FinallyHumanReview);
    if tried.Ok? {
      assert "MORE_EVIDENCE_LIMIT_REACHED" in coded.reasonCodes;
      TellsEarlier(tried.value, coded, s0, HumanReviewRequired);
    }
  }

  /** How a run ends that is settled without another call when the log has length `n`: the
      state is recorded, then the outcome. */
  predicate SettledIn(
    ports: Ports, n: nat, state: RunState, disposition: FinalDisposition, tried: Result<RunOutcome, Failure>)
  {
    && (tried.Ok? <==> ports.recordRun(n + 1).Ok? && ports.recordOutcome(n + 2).Ok?)
    && (tried.Ok? ==> tried.value.disposition == disposition && tried.value.finalState == state)
  }

  /** How a run ends whose PASS is followed by the release. */
  predicate ReleaseConcluded(
    ports: Ports, n: nat, candidate: CandidatePatch, tried: Result<RunOutcome, Failure>, log: seq<Event>)
  {
    && (tried.Ok? <==>
          && ports.recordRun(n + 1).Ok? && ports.release(n + 2).Ok?
          && ports.recordRun(n + 4).Ok? && ports.recordOutcome(n + 5).Ok?)
    && (tried.Ok? ==>
          && tried.value.disposition == FinallyReleased && tried.value.finalState == Released
          && |log| > n + 2 && log[n + 2] == ReleaseCalled(candidate, ports.release(n + 2))
          && ports.release(n + 2).value in tried.value.evidence)
  }

  /** How a run ends whose PASS must not be released automatically. */
  predicate WithheldConcluded(ports: Ports, n: nat, tried: Result<RunOutcome, Failure>) {
    && (tried.Ok? <==>
          && ports.recordRun(n + 1).Ok? && ports.recordRun(n + 3).Ok? && ports.recordOutcome(n + 4).Ok?)
    && (tried.Ok? ==>
          && tried.value.disposition == FinallyPipelineError && tried.value.finalState == PipelineError
          && "AUTOMATIC_RELEASE_NOT_ALLOWED" in tried.value.reasonCodes)
  }

  /** How a run ends after a verdict that ends it. */
  predicate Concluded(
    d: TaskDefinition, ports: Ports, n: nat, candidate: CandidatePatch, reply: GateReply,
    tried: Result<RunOutcome, Failure>, log: seq<Event>)
  {
    match reply.disposition
    case GatePass =>
      if d.automaticReleaseAllowed then ReleaseConcluded(ports, n, candidate, tried, log)
      else WithheldConcluded(ports, n, tried)
    case GateFail => SettledIn(ports, n, GateFailed, FinallyRejected, tried)
    case GateHumanReview => SettledIn(ports, n, HumanReviewRequired, FinallyHumanReview, tried)
    case GateMoreEvidence =>
      && SettledIn(ports, n, HumanReviewRequired, FinallyHumanReview, tried)
      && (tried.Ok? ==> "MORE_EVIDENCE_LIMIT_REACHED" in tried.value.reasonCodes)
  }

  /** The verdicts that end the loop. */
  method Settle(
      d: TaskDefinition, ports: Ports, s0: Session, candidate: CandidatePatch, cycle: nat, reply: GateReply)
    returns (s: Session, tried: Result<RunOutcome, Failure>)
    requires Synced(d, s0) && s0.run.state == Gating && WithinLedger(d.budget, s0.run.usage)
    requires JustGated(s0, candidate, cycle, reply) && reply.disposition != GateMoreEvidence
    ensures s.run.startedAt == s0.run.startedAt && s.run.task == s0.run.task
    ensures Concluded(d, ports, |s0.log|, candidate, reply, tried, s.log)
    ensures tried.Ok? ==> Tells(tried.value, s0, tried.value.finalState)
    ensures tried.Ok? ==> Closed(d, s, tried.value)
    ensures tried.Err? ==> Stopped(d, s, tried.error) && tried.error.PortFailure?
  {
    var evidence := Some(reply.evidenceReference);
    match reply.disposition {
      case GatePass => s, tried := ReleaseCandidate(d, ports, s0, candidate, evidence);
      case GateFail => s, tried := Finish(d, ports, s0, GateFailed, evidence, FinallyRejected);
      case GateHumanReview => s, tried := Finish(d, ports, s0, HumanReviewRequired, evidence, FinallyHumanReview);
    }
  }

  /** What follows from a verdict: the end of the run, or another cycle. */
  method Respond(
      d: TaskDefinition, ghost task: TaskRequest, ports: Ports, s0: Session, candidate: CandidatePatch,
      cycle: nat, reply: GateReply)
    returns (s: Session, ended: Option<Result<RunOutcome, Failure>>)
    requires Synced(d, s0) && s0.run.state == Gating && WithinLedger(d.budget, s0.run.usage)
    requires JustGated(s0, candidate, cycle, reply)
    ensures s.run.startedAt == s0.run.startedAt && s.run.task == s0.run.task
    ensures match ended
      case None =>
        && Synced(d, s) && s.run.state == MoreEvidence && Gateable(d, s, candidate, cycle + 1)
        && cycle < d.maximumMoreEvidenceCycles
      case Some(Ok(outcome)) => Closed(d, s, outcome)
      case Some(Err(failure)) => Stopped(d, s, failure) && failure.PortFailure?
    ensures ended.None? <==>
      && reply.disposition == GateMoreEvidence && cycle < d.maximumMoreEvidenceCycles
      && ports.recordRun(|s0.log| + 1).Ok?
    ensures ended.None? ==>
      && |s.log| == |s0.log| + 2 && s.run.candidate == s0.run.candidate
      && s.run.usage == s0.run.usage.(moreEvidenceCycles := cycle + 1)
    ensures !(reply.disposition == GateMoreEvidence && cycle < d.maximumMoreEvidenceCycles) ==>
      && ended.Some? && Concluded(d, ports, |s0.log|, candidate, reply, ended.value, s.log)
      && (ended.value.Ok? ==> Tells(ended.value.value, s0, ended.value.value.finalState))
    ensures Insistent(d, task, ports) && reply.disposition == GateMoreEvidence ==>
      if cycle < d.maximumMoreEvidenceCycles then ended.None?
      else
        && ended.Some? && ended.value.Ok? && ended.value.value.disposition == FinallyHumanReview
        && HistoryOf(s.log).gateCalls == cycle + 1
  {
    var tried;
    if reply.disposition != GateMoreEvidence {
      s, tried := Settle(d, ports, s0, candidate, cycle, reply);
      return s, Some(tried);
    }
    if cycle + 1 > d.maximumMoreEvidenceCycles {
      s, tried := HandOver(d, task, ports, s0, candidate, cycle, reply);
      return s, Some(tried);
    }
    var failure;
    s, failure := GoRound(d, task, ports, s0, candidate, cycle, reply);
    ended := match failure case None => None case Some(f) => Some(Err(f));
  }

  /** What was used after a turn that begins at length `n`. */
  function UsedAfter(ports: Ports, n: nat, used: UsageLedger, cycle: nat): UsageLedger {
    var reply := ports.evaluate(n + 3);
    if reply.Err? then used else AddGateUsage(used, reply.value.consumed).(moreEvidenceCycles := cycle + 1)
  }

  /** A turn that begins at length `n` asks for more evidence, is given another cycle, and that
      is recorded. */
  predicate Repeats(d: TaskDefinition, ports: Ports, n: nat, used: UsageLedger, cycle: nat) {
    && ReachesVerdict(d, ports, n, used) && ports.evaluate(n + 3).value.disposition == GateMoreEvidence
    && cycle < d.maximumMoreEvidenceCycles && ports.recordRun(n + 6).Ok?
  }

  /** It reaches a verdict that ends the run. */
  predicate Decides(d: TaskDefinition, ports: Ports, n: nat, used: UsageLedger, cycle: nat) {
    && ReachesVerdict(d, ports, n, used)
    && (ports.evaluate(n + 3).value.disposition == GateMoreEvidence ==> cycle >= d.maximumMoreEvidenceCycles)
  }

  /** The run ends as that verdict says. */
  predicate EndsAsDecided(
    d: TaskDefinition, ports: Ports, n: nat, used: UsageLedger, candidate: CandidatePatch,
    tried: Result<RunOutcome, Failure>, log: seq<Event>)
  {
    ports.evaluate(n + 3).Ok? &&
    var reply := ports.evaluate(n + 3).value;
    && Concluded(d, ports, n + 5, candidate, reply, tried, log)
    && (tried.Ok? ==>
          && tried.value.candidateId == Some(candidate.candidateId)
          && tried.value.usage == AddGateUsage(used, reply.consumed)
          && reply.evidenceReference in tried.value.evidence
          && forall code :: code in reply.reasonCodes ==> code in tried.value.reasonCodes)
  }

  /** The session before the turn of this number. */
  predicate BeforeTurn(d: TaskDefinition, ports: Ports, s: Session, candidate: CandidatePatch, cycle: nat) {
    && Synced(d, s) && s.run.state == (if cycle == 0 then CandidateAvailable else MoreEvidence)
    && Gateable(d, s, candidate, cycle) && cycle <= d.maximumMoreEvidenceCycles
    && s.run.startedAt == ports.clock(0) && s.run.candidate == Some(candidate)
  }

  /** The guarded part of the run is over. */
  predicate Over(d: TaskDefinition, s: Session, tried: Result<RunOutcome, Failure>) {
    match tried case Ok(outcome) => Closed(d, s, outcome) case Err(failure) => Stopped(d, s, failure)
  }

  /** One turn of the loop. */
  method Turn(
      d: TaskDefinition, ghost task: TaskRequest, ports: Ports, s0: Session, candidate: CandidatePatch, cycle: nat)
    returns (s: Session, ended: Option<Result<RunOutcome, Failure>>)
    requires BeforeTurn(d, ports, s0, candidate, cycle)
    ensures s.run.task == s0.run.task
    ensures ended.None? ==>
      && BeforeTurn(d, ports, s, candidate, cycle + 1) && !Late(d, ports, |s0.log|)
      && |s.log| == |s0.log| + 7 && s.run.usage == UsedAfter(ports, |s0.log|, s0.run.usage, cycle)
    ensures ended.Some? ==>
      && Over(d, s, ended.value)
      && (ended.value == Err(BudgetOverrun) ==>
            if Late(d, ports, |s0.log|) then s.run.state == s0.run.state else s.run.state == Gating)
      && (Late(d, ports, |s0.log|) ==> ended.value == Err(BudgetOverrun))
    ensures ended.None? <==> Repeats(d, ports, |s0.log|, s0.run.usage, cycle)
    ensures Decides(d, ports, |s0.log|, s0.run.usage, cycle) ==>
      ended.Some? && EndsAsDecided(d, ports, |s0.log|, s0.run.usage, candidate, ended.value, s.log)
    ensures Insistent(d, task, ports) ==>
      if cycle + 1 > d.budget.gateAttempts then
        && ended == Some(Err(BudgetOverrun)) && s.run.state == Gating && HistoryOf(s.log).gateCalls == cycle + 1
      else if cycle < d.maximumMoreEvidenceCycles then ended.None?
      else
        && ended.Some? && ended.value.Ok? && ended.value.value.disposition == FinallyHumanReview
        && HistoryOf(s.log).gateCalls == cycle + 1
  {
    var verdict;
    s, verdict := GateOnce(d, task, ports, s0, candidate, cycle);
    if verdict.Err? { return s, Some(Err(verdict.error)); }
    ghost var ruled := s;
    s, ended := Respond(d, task, ports, s, candidate, cycle, verdict.value);
  }

  /** Where the gate loop ends: nowhere, or with the verdict of the turn that begins at length
      `n` when `used` was used. */
  datatype Ending = NoVerdict | VerdictAt(n: nat, used: UsageLedger)

  /** The loop at a turn that begins at length `n`: a repeated turn leads to the next one, a
      deciding one is the last, and a turn without a verdict leaves none. */
  function EndOfLoop(d: TaskDefinition, ports: Ports, n: nat, used: UsageLedger, cycle: nat): Ending
    decreases d.maximumMoreEvidenceCycles - cycle
  {
    if Repeats(d, ports, n, used, cycle)
    then EndOfLoop(d, ports, n + 7, UsedAfter(ports, n, used, cycle), cycle + 1)
    else if Decides(d, ports, n, used, cycle) then VerdictAt(n, used)
    else NoVerdict
  }

  /** The run ends as the verdict at the end of the loop says. */
  predicate EndsByRule(
    d: TaskDefinition, ports: Ports, ending: Ending, candidate: CandidatePatch,
    tried: Result<RunOutcome, Failure>, log: seq<Event>)
  {
    match ending
    case NoVerdict => true
    case VerdictAt(n, used) => EndsAsDecided(d, ports, n, used, candidate, tried, log)
  }

  /** The turns before this one were repeated: `us` is what was used at each of them, the
      last being `used`. */
  ghost predicate Chain(
    d: TaskDefinition, ports: Ports, n0: nat, used0: UsageLedger, us: seq<UsageLedger>, n: nat, used: UsageLedger)
  {
    && |us| > 0 && us[0] == used0 && us[|us| - 1] == used && n == n0 + 7 * (|us| - 1)
    && forall j: nat :: j + 1 < |us| ==> Link(d, ports, n0, us, j)
  }

  ghost predicate Link(d: TaskDefinition, ports: Ports, n0: nat, us: seq<UsageLedger>, j: nat)
    requires j + 1 < |us|
  {
    Repeats(d, ports, n0 + 7 * j, us[j], j) && us[j + 1] == UsedAfter(ports, n0 + 7 * j, us[j], j)
  }

  lemma ChainThen(
    d: TaskDefinition, ports: Ports, n0: nat, used0: UsageLedger, us: seq<UsageLedger>, n: nat, used: UsageLedger,
    used': UsageLedger)
    requires Chain(d, ports, n0, used0, us, n, used) && Repeats(d, ports, n, used, |us| - 1)
    requires used' == UsedAfter(ports, n, used, |us| - 1)
    ensures Chain(d, ports, n0, used0, us + [used'], n + 7, used')
  {
    var longer := us + [used'];
    forall j: nat | j + 1 < |longer|
      ensures Link(d, ports, n0, longer, j)
    {
      if j + 1 < |us| { assert Link(d, ports, n0, us, j); }
    }
  }

  lemma {:induction false} ChainEnds(
    d: TaskDefinition, ports: Ports, n0: nat, used0: UsageLedger, us: seq<UsageLedger>, n: nat, used: UsageLedger, k: nat)
    requires Chain(d, ports, n0, used0, us, n, used) && k < |us|
    ensures EndOfLoop(d, ports, n0 + 7 * k, us[k], k) == EndOfLoop(d, ports, n, used, |us| - 1)
    decreases |us| - k
  {
    if k + 1 < |us| {
      assert Link(d, ports, n0, us, k);
      ChainEnds(d, ports, n0, used0, us, n, used, k + 1);
    }
  }

  lemma LastTurnRules(
    d: TaskDefinition, ports: Ports, n0: nat, used0: UsageLedger, us: seq<UsageLedger>, n: nat, used: UsageLedger,
    candidate: CandidatePatch, tried: Result<RunOutcome, Failure>, log: seq<Event>)
    requires Chain(d, ports, n0, used0, us, n, used) && !Repeats(d, ports, n, used, |us| - 1)
    requires Decides(d, ports, n, used, |us| - 1) ==> EndsAsDecided(d, ports, n, used, candidate, tried, log)
    ensures EndsByRule(d, ports, EndOfLoop(d, ports, n0, used0, 0), candidate, tried, log)
  {
    ChainEnds(d, ports, n0, used0, us, n, used, 0);
  }

  /** The gate loop: evaluate, then release, reject, hand over or go round again. */
  method GateCandidate(
      d: TaskDefinition, ghost task: TaskRequest, ports: Ports, s0: Session, candidate: CandidatePatch)
    returns (s: Session, tried: Result<RunOutcome, Failure>)
    requires BeforeTurn(d, ports, s0, candidate, 0)
    ensures EndsByRule(d, ports, EndOfLoop(d, ports, |s0.log|, s0.run.usage, 0), candidate, tried, s.log)
    ensures Over(d, s, tried) && s.run.task == s0.run.task
    ensures tried == Err(BudgetOverrun) ==> s.run.state in {CandidateAvailable, Gating, MoreEvidence}
    ensures tried == Err(BudgetOverrun) && s.run.state == CandidateAvailable <==> Late(d, ports, |s0.log|)
    ensures Insistent(d, task, ports) ==> GatedAsOftenAsAllowed(d, s)
    ensures Insistent(d, task, ports) ==>
      if d.maximumMoreEvidenceCycles < d.budget.gateAttempts
      then tried.Ok? && tried.value.disposition == FinallyHumanReview
      else tried == Err(BudgetOverrun) && s.run.state == Gating
  {
    s := s0;
    var cycle: nat := 0;
    ghost var us := [s0.run.usage];
    while true
      invariant BeforeTurn(d, ports, s, candidate, cycle)
      invariant if cycle == 0 then s == s0 else !Late(d, ports, |s0.log|)
      invariant s.run.task == s0.run.task
      invariant |us| == cycle + 1 && Chain(d, ports, |s0.log|, s0.run.usage, us, |s.log|, s.run.usage)
      decreases d.maximumMoreEvidenceCycles - cycle
    {
      var ended;
      ghost var n, used := |s.log|, s.run.usage;
      s, ended := Turn(d, task, ports, s, candidate, cycle);
      if ended.Some? {
        LastTurnRules(d, ports, |s0.log|, s0.run.usage, us, n, used, candidate, ended.value, s.log);
        return s, ended.value;
      }
      ChainThen(d, ports, |s0.log|, s0.run.usage, us, n, used, s.run.usage);
      us := us + [s.run.usage];
      cycle := cycle + 1;
    }
  }

  /** The run may be released: the gate passed `candidate` and nothing came in between. */
  predicate Releasable(d: TaskDefinition, s: Session, candidate: CandidatePatch) {
    var h := HistoryOf(s.log);
    && Synced(d, s) && s.run.state == ReadyForRelease
    && d.automaticReleaseAllowed && WithinLedger(d.budget, s.run.usage)
    && h.releases == 0 && h.candidate == Some(candidate) && Passed(h.lastCall, candidate)
  }

  lemma ReleaseIsLegal(d: TaskDefinition, s: Session, candidate: CandidatePatch, deployment: string)
    requires Releasable(d, s, candidate)
    ensures
      var log := Then(s.log, ReleaseCalled(candidate, Ok(deployment)));
      var after := s.(log := log, references := s.references + [deployment]);
      Underway(d, after) && Coded(d, after) && Deployed(HistoryOf(log).lastCall)
  {
    ReleaseMayBeCalled(d, s, candidate, Ok(deployment));
    ReleaseReturned(d, HistoryOf(s.log), candidate, deployment);
  }

  lemma ReleaseMayBeCalled(d: TaskDefinition, s: Session, candidate: CandidatePatch, deployment: Result<string, string>)
    requires Releasable(d, s, candidate)
    ensures Legal(d, HistoryOf(s.log), ReleaseCalled(candidate, deployment))
  {}

  lemma ReleaseReturned(d: TaskDefinition, h: History, candidate: CandidatePatch, deployment: string)
    requires h.raised.None?
    ensures
      var e := ReleaseCalled(candidate, Ok(deployment));
      var next := Advance(h, e);
      && next == h.(releases := h.releases + 1, lastCall := Some(e), references := h.references + [deployment])
      && OwnCode(d, next).None? && !CandidateMissing(next) && Deployed(next.lastCall)
  {}

  /** The branch a PASS takes. */
  method ReleaseCandidate(
      d: TaskDefinition, ports: Ports, s0: Session, candidate: CandidatePatch, evidence: Option<string>)
    returns (s: Session, tried: Result<RunOutcome, Failure>)
    requires Synced(d, s0) && s0.run.state == Gating
    requires
      var h := HistoryOf(s0.log);
      && h.releases == 0 && h.candidate == Some(candidate) && evidence == GateEvidence(h.lastCall)
      && Passed(h.lastCall, candidate) && WithinLedger(d.budget, h.usage)
    ensures tried.Ok? ==> Closed(d, s, tried.value)
    ensures tried.Err? ==> Stopped(d, s, tried.error) && tried.error.PortFailure?
    ensures s.run.startedAt == s0.run.startedAt && s.run.task == s0.run.task
    ensures
      if d.automaticReleaseAllowed then ReleaseConcluded(ports, |s0.log|, candidate, tried, s.log)
      else WithheldConcluded(ports, |s0.log|, tried)
    ensures tried.Ok? ==> Tells(tried.value, s0, tried.value.finalState)
  {
    var failure;
    MayMove(d, s0, ReadyForRelease, evidence);
    s, failure := TransitionAndRecord(d, ports, s0, ReadyForRelease, evidence);
    if failure.Some? {
      PassIsNotCoded(d, s0);
      return s, Err(failure.value);
    }
    ghost var ready := s;
    if !d.automaticReleaseAllowed {
      s, tried := Withhold(d, ports, s, candidate);
      if tried.Ok? { TellsEarlier(tried.value, ready, s0, PipelineError); }
      return;
    }
    s, tried := Deliver(d, ports, s, candidate);
    if tried.Ok? { TellsEarlier(tried.value, ready, s0, Released); }
  }

  /** Releases the candidate and reports it. */
  method Deliver(d: TaskDefinition, ports: Ports, s0: Session, candidate: CandidatePatch)
    returns (s: Session, tried: Result<RunOutcome, Failure>)
    requires Releasable(d, s0, candidate)
    ensures tried.Ok? ==> Closed(d, s, tried.value)
    ensures tried.Err? ==> Stopped(d, s, tried.error) && tried.error.PortFailure?
    ensures s.run.startedAt == s0.run.startedAt && s.run.task == s0.run.task
    ensures tried.Ok? <==>
      && ports.release(|s0.log|).Ok? && ports.recordRun(|s0.log| + 2).Ok? && ports.recordOutcome(|s0.log| + 3).Ok?
    ensures tried.Ok? ==>
      && tried.value.disposition == FinallyReleased && Tells(tried.value, s0, Released)
      && |s.log| > |s0.log| && s.log[|s0.log|] == ReleaseCalled(candidate, ports.release(|s0.log|))
      && ports.release(|s0.log|).value in tried.value.evidence
  {
    var deployed;
    s, deployed := CallRelease(d, ports, s0, candidate);
    if deployed.Err? { return s, Err(deployed.error); }
    ghost var released := s;
    s, tried := Finish(d, ports, s, Released, Some(deployed.value), FinallyReleased);
    if tried.Ok? {
      TellsEarlier(tried.value, released, s0, Released);
      LastReferenceIsTold(tried.value, released, deployed.value);
    }
  }

  lemma LastReferenceIsTold(o: RunOutcome, s: Session, reference: string)
    requires s.references != [] && s.references[|s.references| - 1] == reference
    requires Tells(o, s, Released)
    ensures reference in o.evidence
  {}

  /** The call of the release port, and the reference it leaves. */
  method CallRelease(d: TaskDefinition, ports: Ports, s0: Session, candidate: CandidatePatch)
    returns (s: Session, deployed: Result<string, Failure>)
    requires Releasable(d, s0, candidate)
    ensures s.run == s0.run && s.reasonCodes == s0.reasonCodes
    ensures
      && |s.log| == |s0.log| + 1 && s0.log <= s.log
      && s.log[|s0.log|] == ReleaseCalled(candidate, ports.release(|s0.log|))
    ensures match ports.release(|s0.log|)
            case Err(name) => deployed == Err(PortFailure(name)) && Stopped(d, s, deployed.error)
            case Ok(reference) =>
              && deployed == Ok(reference) && s.references == s0.references + [reference]
              && Underway(d, s) && Coded(d, s) && Deployed(HistoryOf(s.log).lastCall)
              && Warranted(d, HistoryOf(s.log), Released)
              && EvidenceFor(HistoryOf(s.log), Released) == Some(reference)
  {
    var deployment := ports.release(|s0.log|);
    var e := ReleaseCalled(candidate, deployment);
    ReleaseMayBeCalled(d, s0, candidate, deployment);
    if deployment.Err? {
      s := Raise(d, s0, e, deployment.error);
      return s, Err(PortFailure(deployment.error));
    }
    ReleaseIsLegal(d, s0, candidate, deployment.value);
    s := s0.(log := Then(s0.log, e), references := s0.references + [deployment.value]);
    deployed := Ok(deployment.value);
  }

  /** At GATING a PASS makes no reason code due. */
  lemma PassIsNotCoded(d: TaskDefinition, s: Session)
    requires Synced(d, s) && s.run.state == Gating && Ruled(HistoryOf(s.log).lastCall, GatePass)
    ensures OwnCode(d, HistoryOf(s.log)).None? && Coded(d, s)
  {
    NotYetReleased(HistoryOf(s.log).saved);
  }

  lemma NotYetReleased(saved: seq<StateTransition>)
    requires Walk(saved, Gating)
    ensures !ReachedRelease(saved)
  {
    if saved != [] { assert saved[|saved| - 1].to in Allowed(saved[|saved| - 1].from); }
  }

  /** A PASS without permission to release closes the run as an error. */
  method Withhold(d: TaskDefinition, ports: Ports, s0: Session, candidate: CandidatePatch)
    returns (s: Session, tried: Result<RunOutcome, Failure>)
    requires Synced(d, s0) && s0.run.state == ReadyForRelease && !d.automaticReleaseAllowed
    requires Passed(HistoryOf(s0.log).lastCall, candidate)
    ensures tried.Ok? ==> Closed(d, s, tried.value)
    ensures tried.Err? ==> Stopped(d, s, tried.error) && tried.error.PortFailure?
    ensures s.run.startedAt == s0.run.startedAt && s.run.task == s0.run.task
    ensures tried.Ok? <==> ports.recordRun(|s0.log| + 1).Ok? && ports.recordOutcome(|s0.log| + 2).Ok?
    ensures tried.Ok? ==>
      && tried.value.disposition == FinallyPipelineError && Tells(tried.value, s0, PipelineError)
      && "AUTOMATIC_RELEASE_NOT_ALLOWED" in tried.value.reasonCodes
  {
    s := s0.(reasonCodes := s0.reasonCodes + ["AUTOMATIC_RELEASE_NOT_ALLOWED"]);
    assert OwnCode(d, HistoryOf(s0.log)) == Some("AUTOMATIC_RELEASE_NOT_ALLOWED");
    var failure;
    s, failure := CloseRun(d, ports, s, PipelineError);
    if failure.Some? {
      FailedClosingStops(d, s, failure.value.typeName);
      return s, Err(failure.value);
    }
    WithheldIsReportable(d, s);
    s, tried := Report(d, ports, s, FinallyPipelineError);
  }

  lemma FailedClosingStops(d: TaskDefinition, s: Session, name: string)
    requires Halted(d, s) && Coded(d, s) && !HistoryOf(s.log).overrun && HistoryOf(s.log).raised == Some(name)
    requires !CandidateMissing(HistoryOf(s.log))
    ensures Stopped(d, s, PortFailure(name))
  {}

  lemma WithheldIsReportable(d: TaskDefinition, s: Session)
    requires Underway(d, s) && Coded(d, s) && s.run.state == PipelineError
    requires Ruled(HistoryOf(s.log).lastCall, GatePass) && !d.automaticReleaseAllowed
    ensures Reportable(d, s, FinallyPipelineError)
  {}

  /** A transition that is kept even when it cannot be recorded. */
  method CloseRun(d: TaskDefinition, ports: Ports, s: Session, to: RunState)
    returns (s': Session, failure: Option<Failure>)
    requires Current(d, s) && to in Allowed(s.run.state)
    requires to == if HistoryOf(s.log).overrun then BudgetExceeded else PipelineError
    ensures Halted(d, s') && SameCalls(HistoryOf(s'.log), HistoryOf(s.log))
    ensures s'.reasonCodes == s.reasonCodes && |s'.log| == |s.log| + 2 && !EndsInBrokenBudget(s'.log)
    ensures OwnCode(d, HistoryOf(s'.log)) == OwnCode(d, HistoryOf(s.log))
    ensures s'.run == s.run.(state := to, updatedAt := s'.run.updatedAt, transitions := s'.run.transitions)
    ensures failure.None? <==> ports.recordRun(|s.log| + 1).Ok?
    ensures s.references <= s'.references
    ensures failure.None? ==> Current(d, s') && HistoryOf(s'.log).raised == HistoryOf(s.log).raised
    ensures failure.Some? ==>
      && failure.value.PortFailure? && EndsInFailedRecord(s'.log)
      && HistoryOf(s'.log).raised
         == (if HistoryOf(s.log).raised.None? then Some(failure.value.typeName) else HistoryOf(s.log).raised)
  {
    var at := ports.clock(|s.log|);
    var updated := Transition(s.run, to, at, None).value;
    var stored := ports.recordRun(|s.log| + 1);
    RecordedTransition(d, s, to, at, None, stored);
    RecordedCodes(d, s, to, at, None, stored);
    s' := s.(run := updated, log := Announced(s, to, at, None, stored));
    match stored {
      case Ok(reference) =>
        s' := s'.(references := s'.references + [reference]);
        failure := None;
      case Err(name) =>
        failure := Some(PortFailure(name));
    }
  }

  // ----- Before the gate ----------------------------------------------------

  /** The task is permitted and both records before READY succeed. */
  predicate ReachesReady(d: TaskDefinition, task: TaskRequest, ports: Ports) {
    Permitted(d, task) && ports.recordRun(2).Ok? && ports.recordRun(4).Ok?
  }

  /** The time is up at the check that follows READY. */
  predicate LateAtReady(d: TaskDefinition, task: TaskRequest, ports: Ports) {
    ReachesReady(d, task, ports) && Late(d, ports, 5)
  }

  /** That check passes, the executor answers affordably, the check after it passes, and the
      record in between succeeds. */
  predicate Produces(d: TaskDefinition, task: TaskRequest, ports: Ports) {
    && ReachesReady(d, task, ports) && !Late(d, ports, 5) && ports.recordRun(7).Ok?
    && Affordable(d, ports.execute(8)) && !Late(d, ports, 9)
  }

  /** Additionally, the answer is a candidate and its record succeeds. */
  predicate ReachesCandidate(d: TaskDefinition, task: TaskRequest, ports: Ports) {
    && Produces(d, task, ports) && AffordablySucceeds(d, ports.execute(8)) && ports.recordRun(11).Ok?
  }

  /** The time is up at the check that follows CANDIDATE_AVAILABLE. */
  predicate LateAtCandidate(d: TaskDefinition, task: TaskRequest, ports: Ports) {
    ReachesCandidate(d, task, ports) && Late(d, ports, 12)
  }

  /** From CREATED to READY. */
  method ValidateTask(d: TaskDefinition, task: TaskRequest, ports: Ports, s0: Session)
    returns (s: Session, failure: Option<Failure>)
    requires Synced(d, s0) && s0.run.state == Created && |s0.log| == 1 && HistoryOf(s0.log).lastCall.None?
    requires s0.run.task == task
    ensures s.run.startedAt == s0.run.startedAt && s.run.task == s0.run.task && s.run.usage == s0.run.usage
    ensures SameCalls(HistoryOf(s.log), HistoryOf(s0.log)) && HistoryOf(s.log).adopted == HistoryOf(s0.log).adopted
    ensures failure.Some? ==> Stopped(d, s, failure.value) && failure != Some(BudgetOverrun)
    ensures failure.None? ==> Synced(d, s) && s.run.state == Ready && |s.log| == 5
    ensures failure.None? <==> ReachesReady(d, task, ports)
  {
    MayMove(d, s0, Validating, None);
    s, failure := TransitionAndRecord(d, ports, s0, Validating, None);
    if failure.Some? { return; }
    if !Permitted(d, task) { return s, Some(OrchestratorFailure); }
    MayMove(d, s, Ready, None);
    s, failure := TransitionAndRecord(d, ports, s, Ready, None);
  }

  /** From CREATED to EXECUTING_CHANGE. */
  method Prepare(d: TaskDefinition, task: TaskRequest, ports: Ports, s0: Session)
    returns (s: Session, failure: Option<Failure>)
    requires Synced(d, s0) && s0.run.state == Created && s0.run.usage == EMPTY_LEDGER
    requires |s0.log| == 1 && HistoryOf(s0.log).lastCall.None?
    requires s0.run.startedAt == ports.clock(0) && s0.run.task == task
    ensures s.run.startedAt == s0.run.startedAt && s.run.task == s0.run.task && s.run.usage == s0.run.usage
    ensures failure.Some? ==> Stopped(d, s, failure.value)
    ensures failure == Some(BudgetOverrun) ==> s.run.state == Ready
    ensures failure == Some(BudgetOverrun) <==> LateAtReady(d, task, ports)
    ensures failure.None? ==>
      && SameCalls(HistoryOf(s.log), HistoryOf(s0.log)) && HistoryOf(s.log).adopted == HistoryOf(s0.log).adopted
      && Synced(d, s) && s.run.state == ExecutingChange && |s.log| == 8
    ensures failure.None? <==> ReachesReady(d, task, ports) && !Late(d, ports, 5) && ports.recordRun(7).Ok?
  {
    s, failure := ValidateTask(d, task, ports, s0);
    if failure.Some? { return; }
    s, failure := CheckAndEnter(d, ports, s, ExecutingChange);
  }

  /** `s` after the executor answered. */
  function Executed(s: Session, result: ExecutionResult): Session {
    s.(run := s.run.(usage := AddExecutionUsage(s.run.usage, result.consumed)),
       log := Then(s.log, ChangeExecuted(Ok(result))))
  }

  /** Nothing has been called yet. */
  predicate Fresh(h: History) {
    h.executions == h.gateCalls == h.releases == 0 && h.lastCall.None? && !h.adopted
  }

  lemma ExecutorMayBeCalled(d: TaskDefinition, s: Session, e: Event)
    requires Synced(d, s) && s.run.state == ExecutingChange && s.run.usage == EMPTY_LEDGER
    requires Fresh(HistoryOf(s.log)) && e.ChangeExecuted?
    ensures Legal(d, HistoryOf(s.log), e)
  {}

  lemma ExecutionIsLegal(d: TaskDefinition, s: Session, result: ExecutionResult)
    requires Synced(d, s) && s.run.state == ExecutingChange && s.run.usage == EMPTY_LEDGER
    requires Fresh(HistoryOf(s.log))
    ensures
      && Answering(d, Executed(s, result))
      && HistoryOf(Executed(s, result).log) == Advance(HistoryOf(s.log), ChangeExecuted(Ok(result)))
  {
    ExecutorMayBeCalled(d, s, ChangeExecuted(Ok(result)));
  }

  /** Calls the executor and checks the budget its answer leaves. */
  method ExecuteChange(d: TaskDefinition, ports: Ports, s0: Session)
    returns (s: Session, result: Result<ExecutionResult, Failure>)
    requires Synced(d, s0) && s0.run.state == ExecutingChange && s0.run.usage == EMPTY_LEDGER
    requires Fresh(HistoryOf(s0.log)) && s0.run.startedAt == ports.clock(0)
    ensures s.run.startedAt == s0.run.startedAt && s.run.task == s0.run.task
    ensures result.Err? ==> Stopped(d, s, result.error)
    ensures result == Err(BudgetOverrun) ==> s.run.state == ExecutingChange
    ensures result.Ok? ==>
      && Answering(d, s) && s.run.state == ExecutingChange && WithinLedger(d.budget, s.run.usage)
      && SameCalls(HistoryOf(s.log), Advance(HistoryOf(s0.log), ChangeExecuted(Ok(result.value))))
      && !HistoryOf(s.log).adopted && |s.log| == |s0.log| + 2
      && s.run.usage.gateAttempts == s.run.usage.moreEvidenceCycles == 0
      && s.run.usage == AddExecutionUsage(EMPTY_LEDGER, result.value.consumed)
    ensures result.Ok? <==>
      var reply := ports.execute(|s0.log|);
      && reply.Ok? && WithinLedger(d.budget, AddExecutionUsage(EMPTY_LEDGER, reply.value.consumed))
      && !Late(d, ports, |s0.log| + 1)
    ensures result.Ok? ==> ports.execute(|s0.log|) == Ok(result.value)
  {
    s, result := CallExecutor(d, ports, s0);
    if result.Err? { return; }
    var passed;
    s, passed := CheckBudget(d, ports, s);
    if !passed { result := Err(BudgetOverrun); }
  }

  /** The call of the executor, and what it puts on the ledger. */
  method CallExecutor(d: TaskDefinition, ports: Ports, s0: Session)
    returns (s: Session, result: Result<ExecutionResult, Failure>)
    requires Synced(d, s0) && s0.run.state == ExecutingChange && s0.run.usage == EMPTY_LEDGER
    requires Fresh(HistoryOf(s0.log))
    ensures match ports.execute(|s0.log|)
            case Err(name) => result == Err(PortFailure(name))
            case Ok(reply) => result == Ok(reply) && s == Executed(s0, reply)
    ensures |s.log| == |s0.log| + 1
    ensures s.run.startedAt == s0.run.startedAt && s.run.task == s0.run.task
    ensures match result case Ok(_) => Answering(d, s) case Err(failure) => Stopped(d, s, failure)
  {
    var execution := ports.execute(|s0.log|);
    var e := ChangeExecuted(execution);
    ExecutorMayBeCalled(d, s0, e);
    if execution.Err? {
      s := Raise(d, s0, e, execution.error);
      return s, Err(PortFailure(execution.error));
    }
    ExecutionIsLegal(d, s0, execution.value);
    s, result := Executed(s0, execution.value), Ok(execution.value);
  }

  // ----- The whole run ------------------------------------------------------

  /** The executor has answered `result`, and nothing was done about it yet. */
  predicate JustExecuted(d: TaskDefinition, s: Session, result: ExecutionResult) {
    var h := HistoryOf(s.log);
    && Answering(d, s) && s.run.state == ExecutingChange && WithinLedger(d.budget, s.run.usage)
    && h.lastCall == Some(ChangeExecuted(Ok(result))) && h.candidate == result.candidate
    && h.gateCalls == h.releases == 0 && !h.adopted
    && h.usage.gateAttempts == h.usage.moreEvidenceCycles == 0
  }

  /** Puts the candidate on the run and records CANDIDATE_AVAILABLE. */
  method Adopt(d: TaskDefinition, ports: Ports, s0: Session, result: ExecutionResult, candidate: CandidatePatch)
    returns (s: Session, failure: Option<Failure>)
    requires JustExecuted(d, s0, result) && result.succeeded && result.candidate == Some(candidate)
    ensures s.run.startedAt == s0.run.startedAt && s.run.task == s0.run.task
    ensures failure.Some? ==> Stopped(d, s, failure.value) && failure.value.PortFailure?
    ensures failure.None? <==> ports.recordRun(|s0.log| + 1).Ok?
    ensures failure.None? ==>
      && Synced(d, s) && s.run.state == CandidateAvailable && Gateable(d, s, candidate, 0)
      && |s.log| == |s0.log| + 2 && s.run.usage == s0.run.usage && s.run.candidate == Some(candidate)
  {
    s := s0.(run := s0.run.(candidate := Some(candidate)),
             references := s0.references + [candidate.evidenceReference]);
    ghost var adopting := s;
    s, failure := TransitionAndRecord(d, ports, s, CandidateAvailable, Some(candidate.evidenceReference));
    if failure.Some? { FailedRecordStops(d, adopting, s.log, failure.value.typeName); }
  }

  /** The code a failed change is reported with. */
  function CodeOf(result: ExecutionResult): string {
    match result.failureCode
    case None => "CHANGE_EXECUTION_FAILED"
    case Some(code) => if code == "" then "CHANGE_EXECUTION_FAILED" else code
  }

  /** The executor reports a failed change. */
  method RejectChange(d: TaskDefinition, ports: Ports, s0: Session, result: ExecutionResult)
    returns (s: Session, tried: Result<RunOutcome, Failure>)
    requires JustExecuted(d, s0, result) && !result.succeeded
    ensures tried.Ok? ==> Closed(d, s, tried.value)
    ensures tried.Err? ==> Stopped(d, s, tried.error) && tried.error.PortFailure?
    ensures SettledIn(ports, |s0.log|, ChangeFailed, FinallyRejected, tried) && s.run.task == s0.run.task
    ensures tried.Ok? ==> tried.value.usage == s0.run.usage && CodeOf(result) in tried.value.reasonCodes
  {
    var code := if result.failureCode.Some? && result.failureCode.value != ""
                then result.failureCode.value else "CHANGE_EXECUTION_FAILED";
    RejectionMayFinish(d, s0, result, code);
    s := s0.(reasonCodes := s0.reasonCodes + [code]);
    assert code in s.reasonCodes;
    s, tried := Finish(d, ports, s, ChangeFailed, None, FinallyRejected);
  }

  lemma RejectionMayFinish(d: TaskDefinition, s: Session, result: ExecutionResult, code: string)
    requires JustExecuted(d, s, result) && !result.succeeded && code == CodeOf(result)
    ensures
      var coded, h := s.(reasonCodes := s.reasonCodes + [code]), HistoryOf(s.log);
      && Underway(d, coded) && Coded(d, coded)
      && ChangeFailed in Allowed(s.run.state) && Warranted(d, h, ChangeFailed) && EvidenceFor(h, ChangeFailed) == None
  {}

  /** How the gate loop of a run ends that reaches it. */
  function EndOfRun(d: TaskDefinition, ports: Ports): Ending
    requires ports.execute(8).Ok?
  {
    EndOfLoop(d, ports, 12, AddExecutionUsage(EMPTY_LEDGER, ports.execute(8).value.consumed), 0)
  }

  /** What a run over its time finds: which of the two states it cannot leave. */
  predicate Stuck(s: Session, tried: Result<RunOutcome, Failure>) {
    tried == Err(BudgetOverrun) && s.run.state in {Ready, CandidateAvailable}
  }

  /** What ports that always ask for more end in. */
  predicate AskedToTheEnd(d: TaskDefinition, s: Session, tried: Result<RunOutcome, Failure>) {
    && GatedAsOftenAsAllowed(d, s)
    && if d.maximumMoreEvidenceCycles < d.budget.gateAttempts
       then tried.Ok? && tried.value.disposition == FinallyHumanReview
       else tried == Err(BudgetOverrun) && s.run.state == Gating
  }

  /** The body of the guarded block: everything up to the returned outcome, or
      the exception that leaves it. */
  method Attempt(d: TaskDefinition, task: TaskRequest, ports: Ports, s0: Session)
    returns (s: Session, tried: Result<RunOutcome, Failure>)
    requires Synced(d, s0) && s0.run.state == Created && |s0.log| == 1 && Fresh(HistoryOf(s0.log))
    requires s0.run.usage == EMPTY_LEDGER && s0.run.startedAt == ports.clock(0) && s0.run.task == task
    ensures tried.Ok? ==> Closed(d, s, tried.value)
    ensures tried.Err? ==> Stopped(d, s, tried.error)
    ensures Stuck(s, tried) <==> LateAtReady(d, task, ports) || LateAtCandidate(d, task, ports)
    ensures s.run.task == task
    ensures Produces(d, task, ports) && !ports.execute(8).value.succeeded ==>
      && SettledIn(ports, 10, ChangeFailed, FinallyRejected, tried)
      && (tried.Ok? ==>
            && tried.value.usage == AddExecutionUsage(EMPTY_LEDGER, ports.execute(8).value.consumed)
            && CodeOf(ports.execute(8).value) in tried.value.reasonCodes)
    ensures ReachesCandidate(d, task, ports) ==>
      EndsByRule(d, ports, EndOfRun(d, ports), ports.execute(8).value.candidate.value, tried, s.log)
    ensures Insistent(d, task, ports) ==> AskedToTheEnd(d, s, tried)
  {
    CalmIsPunctual(d, task, ports);
    var produced;
    s, produced := Produce(d, task, ports, s0);
    if produced.Err? { return s, Err(produced.error); }
    s, tried := Judge(d, task, ports, s, produced.value);
  }

  /** Up to the answer of the executor. */
  method Produce(d: TaskDefinition, task: TaskRequest, ports: Ports, s0: Session)
    returns (s: Session, produced: Result<ExecutionResult, Failure>)
    requires Synced(d, s0) && s0.run.state == Created && |s0.log| == 1 && Fresh(HistoryOf(s0.log))
    requires s0.run.usage == EMPTY_LEDGER && s0.run.startedAt == ports.clock(0) && s0.run.task == task
    ensures s.run.startedAt == s0.run.startedAt && s.run.task == s0.run.task
    ensures produced.Err? ==> Stopped(d, s, produced.error)
    ensures produced == Err(BudgetOverrun) ==> s.run.state in {Ready, ExecutingChange}
    ensures produced == Err(BudgetOverrun) && s.run.state == Ready <==> LateAtReady(d, task, ports)
    ensures produced.Ok? ==>
      && JustExecuted(d, s, produced.value) && |s.log| == 10 && ports.execute(8) == Ok(produced.value)
      && s.run.usage == AddExecutionUsage(EMPTY_LEDGER, produced.value.consumed)
    ensures produced.Ok? <==> Produces(d, task, ports)
  {
    var failure;
    s, failure := Prepare(d, task, ports, s0);
    if failure.Some? { return s, Err(failure.value); }
    s, produced := ExecuteChange(d, ports, s);
  }

  /** From the answer of the executor on. */
  method Judge(d: TaskDefinition, ghost task: TaskRequest, ports: Ports, s0: Session, result: ExecutionResult)
    returns (s: Session, tried: Result<RunOutcome, Failure>)
    requires JustExecuted(d, s0, result) && |s0.log| == 10 && s0.run.startedAt == ports.clock(0)
    requires s0.run.usage == AddExecutionUsage(EMPTY_LEDGER, result.consumed)
    ensures s.run.task == s0.run.task
    ensures !result.succeeded ==>
      && SettledIn(ports, 10, ChangeFailed, FinallyRejected, tried)
      && (tried.Ok? ==> tried.value.usage == s0.run.usage && CodeOf(result) in tried.value.reasonCodes)
    ensures result.succeeded && result.candidate.Some? && ports.recordRun(11).Ok? ==>
      EndsByRule(d, ports, EndOfLoop(d, ports, 12, s0.run.usage, 0), result.candidate.value, tried, s.log)
    ensures tried.Ok? ==> Closed(d, s, tried.value)
    ensures tried.Err? ==> Stopped(d, s, tried.error)
    ensures tried == Err(BudgetOverrun) ==> s.run.state in {CandidateAvailable, Gating, MoreEvidence}
    ensures tried == Err(BudgetOverrun) && s.run.state == CandidateAvailable <==>
      result.succeeded && result.candidate.Some? && ports.recordRun(11).Ok? && Late(d, ports, 12)
    ensures Insistent(d, task, ports) && result.succeeded && result.candidate.Some? && ports.recordRun(11).Ok? ==>
      AskedToTheEnd(d, s, tried)
  {
    if !result.succeeded {
      s, tried := RejectChange(d, ports, s0, result);
      return;
    }
    if result.candidate.None? { return s0, Err(OrchestratorFailure); }
    var failure;
    s, failure := Adopt(d, ports, s0, result, result.candidate.value);
    if failure.Some? { return s, Err(failure.value); }
    s, tried := GateCandidate(d, task, ports, s, result.candidate.value);
  }

  /** Ports that always ask for more reach the gate in time. */
  lemma CalmIsPunctual(d: TaskDefinition, task: TaskRequest, ports: Ports)
    ensures Insistent(d, task, ports) ==> ReachesCandidate(d, task, ports) && !Late(d, ports, 12)
  {
    if Insistent(d, task, ports) {
      assert CalmAt(d, ports, 2) && CalmAt(d, ports, 4) && CalmAt(d, ports, 5) && CalmAt(d, ports, 7)
          && CalmAt(d, ports, 8) && CalmAt(d, ports, 9) && CalmAt(d, ports, 11) && CalmAt(d, ports, 12);
    }
  }

  /** The run returns this. */
  predicate Returns(
    completion: Completion, disposition: FinalDisposition, state: RunState, candidate: CandidatePatch,
    used: UsageLedger, reply: GateReply)
  {
    && completion.Returned? && completion.outcome.disposition == disposition && completion.outcome.finalState == state
    && completion.outcome.candidateId == Some(candidate.candidateId)
    && completion.outcome.usage == AddGateUsage(used, reply.consumed)
    && reply.evidenceReference in completion.outcome.evidence
    && forall code :: code in reply.reasonCodes ==> code in completion.outcome.reasonCodes
  }

  /** What a run returns whose gate loop ends like this, if the records that follow the
      verdict succeed, and after a PASS the release. */
  predicate Fulfils(
    d: TaskDefinition, ports: Ports, ending: Ending, candidate: CandidatePatch, completion: Completion, log: seq<Event>)
  {
    ending.VerdictAt? ==>
      && var n := ending.n;
      && ports.evaluate(n + 3).Ok?
      && var reply := ports.evaluate(n + 3).value;
      && ports.recordRun(n + 6).Ok? ==>
      match reply.disposition
      case GateFail =>
        ports.recordOutcome(n + 7).Ok? ==> Returns(completion, FinallyRejected, GateFailed, candidate, ending.used, reply)
      case GateHumanReview =>
        ports.recordOutcome(n + 7).Ok? ==>
          Returns(completion, FinallyHumanReview, HumanReviewRequired, candidate, ending.used, reply)
      case GateMoreEvidence =>
        ports.recordOutcome(n + 7).Ok? ==>
          && Returns(completion, FinallyHumanReview, HumanReviewRequired, candidate, ending.used, reply)
          && "MORE_EVIDENCE_LIMIT_REACHED" in completion.outcome.reasonCodes
      case GatePass =>
        if d.automaticReleaseAllowed then
          ports.release(n + 7).Ok? && ports.recordRun(n + 9).Ok? && ports.recordOutcome(n + 10).Ok? ==>
            && Returns(completion, FinallyReleased, Released, candidate, ending.used, reply)
            && |log| > n + 7 && log[n + 7] == ReleaseCalled(candidate, ports.release(n + 7))
            && ports.release(n + 7).value in completion.outcome.evidence
        else
          ports.recordRun(n + 8).Ok? && ports.recordOutcome(n + 9).Ok? ==>
            && Returns(completion, FinallyPipelineError, PipelineError, candidate, ending.used, reply)
            && "AUTOMATIC_RELEASE_NOT_ALLOWED" in completion.outcome.reasonCodes
  }

  lemma RuleIsFulfilled(
    d: TaskDefinition, task: TaskRequest, ports: Ports, tried: Result<RunOutcome, Failure>,
    completion: Completion, log: seq<Event>, longer: seq<Event>)
    requires ReachesCandidate(d, task, ports) ==>
      EndsByRule(d, ports, EndOfRun(d, ports), ports.execute(8).value.candidate.value, tried, log)
    requires tried.Ok? ==> completion == Returned(tried.value) && longer == log
    ensures ReachesCandidate(d, task, ports) ==>
      Fulfils(d, ports, EndOfRun(d, ports), ports.execute(8).value.candidate.value, completion, longer)
  {}

  /** One run, for every registry, task and port behaviour. */
  method Run(registry: map<string, TaskDefinition>, task: TaskRequest, ports: Ports)
    returns (completion: Completion, log: seq<Event>)
    ensures Resolve(registry, task.taskType).None? <==> completion == Raised(UnsupportedTaskType)
    ensures Resolve(registry, task.taskType).None? ==> log == []
    ensures Resolve(registry, task.taskType).Some? ==>
      var d := Resolve(registry, task.taskType).value;
      && AllLegal(d, log)
      && (completion.Returned? ==> Reported(log, completion.outcome))
      && (completion == Raised(InvalidTransition) <==>
            LateAtReady(d, task, ports) || LateAtCandidate(d, task, ports))
      && (completion == Raised(InvalidTransition) ==>
            EndsInBrokenBudget(log) && WithinLedger(d.budget, HistoryOf(log).usage))
      && (completion.Raised? && completion != Raised(InvalidTransition) ==>
            completion.failure.PortFailure? && EndsInFailedRecord(log))
      && HistoryOf(log).task == task
      && (Produces(d, task, ports) && !ports.execute(8).value.succeeded
          && ports.recordRun(11).Ok? && ports.recordOutcome(12).Ok? ==>
            && completion.Returned? && completion.outcome.disposition == FinallyRejected
            && completion.outcome.finalState == ChangeFailed
            && CodeOf(ports.execute(8).value) in completion.outcome.reasonCodes)
      && (ReachesCandidate(d, task, ports) ==>
            Fulfils(d, ports, EndOfRun(d, ports), ports.execute(8).value.candidate.value, completion, log))
      && (Insistent(d, task, ports) ==>
          && completion.Returned?
          && HistoryOf(log).gateCalls == MinNat(d.maximumMoreEvidenceCycles, d.budget.gateAttempts) + 1
          && completion.outcome.disposition ==
             if d.maximumMoreEvidenceCycles < d.budget.gateAttempts
             then FinallyHumanReview else FinallyBudgetExceeded)
  {
    var resolved := Resolve(registry, task.taskType);
    if resolved.None? { return Raised(UnsupportedTaskType), []; }
    var d := resolved.value;
    var s := Start(d, task, ports.clock(0));
    var tried;
    s, tried := Attempt(d, task, ports, s);
    ghost var attempted := s.log;
    match tried {
      case Ok(outcome) => completion := Returned(outcome);
      case Err(BudgetOverrun) => completion, s := OnBudgetOverrun(d, ports, s, task);
      case Err(failure) => completion, s := OnFailure(d, ports, s, failure);
    }
    log := s.log;
    RuleIsFulfilled(d, task, ports, tried, completion, attempted, log);
  }

  method Start(d: TaskDefinition, task: TaskRequest, now: real) returns (s: Session)
    ensures Synced(d, s) && s.run.state == Created && |s.log| == 1 && Fresh(HistoryOf(s.log))
    ensures s.run.usage == EMPTY_LEDGER && s.run.startedAt == now && s.run.task == task
  {
    var run := OrchestrationRun(task, Created, now, now, EMPTY_LEDGER, None, []);
    s := Session(run, [], [], Then([], Started(now, task)));
  }

  /** The handler of an exceeded budget; whatever it raises leaves the run. */
  method OnBudgetOverrun(d: TaskDefinition, ports: Ports, s0: Session, ghost task: TaskRequest)
    returns (completion: Completion, s: Session)
    requires Stopped(d, s0, BudgetOverrun)
    ensures Halted(d, s) && HistoryOf(s.log).gateCalls == HistoryOf(s0.log).gateCalls && s.run.task == s0.run.task
    ensures completion == Raised(InvalidTransition) <==> s0.run.state in {Ready, CandidateAvailable}
    ensures completion == Raised(InvalidTransition) ==> s.log == s0.log
    ensures completion.Returned? ==>
      && Reported(s.log, completion.outcome)
      && completion.outcome.disposition == FinallyBudgetExceeded
    ensures completion.Raised? && completion != Raised(InvalidTransition) ==>
      completion.failure.PortFailure? && EndsInFailedRecord(s.log)
    ensures completion.Raised? ==> completion.failure != UnsupportedTaskType
    ensures Insistent(d, task, ports) && s0.run.state == Gating ==> completion.Returned?
  {
    s := s0.(reasonCodes := s0.reasonCodes + ["RESOURCE_BUDGET_EXCEEDED"]);
    ghost var calm := Insistent(d, task, ports);
    if !Terminal(s.run.state) {
      StatesThatCannotBeClosed(s.run.state);
      if BudgetExceeded !in Allowed(s.run.state) { return Raised(InvalidTransition), s; }
      assert calm ==> CalmAt(d, ports, |s.log| + 1);
      var failure;
      s, failure := CloseRun(d, ports, s, BudgetExceeded);
      if failure.Some? { return Raised(failure.value), s; }
    }
    assert calm ==> CalmAt(d, ports, |s.log|);
    var r;
    s, r := Conclude(d, ports, s, FinallyBudgetExceeded);
    completion := match r case Ok(o) => Returned(o) case Err(f) => Raised(f);
  }

  /** The handler of any other exception: closing the run is attempted, and a
      failure to do so is swallowed. */
  method OnFailure(d: TaskDefinition, ports: Ports, s0: Session, cause: Failure)
    returns (completion: Completion, s: Session)
    requires Stopped(d, s0, cause) && cause != BudgetOverrun
    ensures Halted(d, s) && s.run.task == s0.run.task
    ensures completion.Returned? ==>
      && Reported(s.log, completion.outcome)
      && completion.outcome.disposition == FinallyPipelineError
      && "PIPELINE_EXCEPTION:" + TypeName(cause) in completion.outcome.reasonCodes
    ensures completion.Raised? ==>
      completion.failure.PortFailure? && EndsInFailedRecord(s.log)
    ensures !EndsInBrokenBudget(s.log)
  {
    s := s0.(reasonCodes := s0.reasonCodes + ["PIPELINE_EXCEPTION:" + TypeName(cause)]);
    if !Terminal(s.run.state) && PipelineError in Allowed(s.run.state) {
      var failure;
      s, failure := CloseRun(d, ports, s, PipelineError);
    }
    StatesThatCannotBeClosed(s.run.state);
    ExceptionIsCoded(d, s0, cause, HistoryOf(s.log));
    var r;
    s, r := Conclude(d, ports, s, FinallyPipelineError);
    completion := match r case Ok(o) => Returned(o) case Err(f) => Raised(f);
  }

  /** The code the handler adds is the one the outcome must report, whether or not the
      run could be closed. */
  lemma ExceptionIsCoded(d: TaskDefinition, s: Session, cause: Failure, h: History)
    requires Stopped(d, s, cause) && cause != BudgetOverrun
    requires SameCalls(h, HistoryOf(s.log)) && OwnCode(d, h) == OwnCode(d, HistoryOf(s.log))
    requires cause.PortFailure? || s.run.state == Validating ==> h.raised == HistoryOf(s.log).raised
    ensures Codes(d, h, FinallyPipelineError) == s.reasonCodes + ["PIPELINE_EXCEPTION:" + TypeName(cause)]
  {}

  // ----- Runs over their time -----------------------------------------------

  /** Ports that never fail, whose executor returns `candidate` for free, and whose clock
      jumps past the limit when the log has length `jump`. */
  function Stalling(d: TaskDefinition, candidate: CandidatePatch, jump: nat): Ports {
    Ports(
      i => if i < jump then 0.0 else d.budget.elapsedSeconds + 1.0,
      i => Ok(ExecutionResult(true, Some(candidate), Consumption(0, 0, 0), None)),
      i => Err("unused"), i => Err("unused"), i => Ok("run"), i => Ok("outcome"))
  }

  /** Both ways to be late happen, for every task the definition permits. */
  lemma RunsCanBeLate(d: TaskDefinition, task: TaskRequest, candidate: CandidatePatch)
    requires Permitted(d, task) && d.budget.elapsedSeconds >= 0.0
    ensures LateAtReady(d, task, Stalling(d, candidate, 5))
    ensures d.budget.executionAttempts >= 1 ==> LateAtCandidate(d, task, Stalling(d, candidate, 12))
  {}
}
