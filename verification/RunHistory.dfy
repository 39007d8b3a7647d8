/** What an observer of the ports can say about one orchestration run.

    `Event` is one observable action, `HistoryOf` summarises a log of them, and
    `Legal` says which action may follow which history.  The theorems below hold
    of every log all of whose events were legal; `Orchestrator.Run` proves that
    it only produces such logs, whatever the ports answer. */
module RunHistory {
  import opened Prelude
  import opened RunModel
  import opened StateMachine
  import opened Budgets

  datatype Event =
    | Started(at: real, task: TaskRequest)
    | BudgetChecked(elapsed: real, passed: bool)
    | Transitioned(step: StateTransition)
    | RunRecorded(snapshot: OrchestrationRun, stored: Result<string, string>)
    | ChangeExecuted(execution: Result<ExecutionResult, string>)
    | GateEvaluated(candidate: CandidatePatch, cycle: nat, gate: Result<GateReply, string>)
    | ReleaseCalled(released: CandidatePatch, deployment: Result<string, string>)
    | OutcomeRecorded(outcome: RunOutcome, receipt: Result<string, string>)
  {
    /** Calls of the executor, the gate and the release port. */
    predicate Call?() { ChangeExecuted? || GateEvaluated? || ReleaseCalled? }

    predicate Raised?() {
      || (ChangeExecuted? && execution.Err?)
      || (GateEvaluated? && gate.Err?)
      || (ReleaseCalled? && deployment.Err?)
    }

    /** The consumption and attempts this call put on the ledger. */
    function Charge(): UsageLedger {
      match this
      case ChangeExecuted(Ok(r)) =>
        UsageLedger(r.consumed.inputTokens, r.consumed.outputTokens, r.consumed.llmRequests, 1, 0, 0)
      case GateEvaluated(_, _, Ok(r)) =>
        UsageLedger(r.consumed.inputTokens, r.consumed.outputTokens, r.consumed.llmRequests, 0, 1, 0)
      case _ => EMPTY_LEDGER
    }
  }

  /** `announced` is a transition taken in memory that no record has followed yet,
      `adopted` says that a candidate was put on the run, `raised` names the first
      exception of a port, `saved` is the walk the evidence port last accepted. */
  datatype History = History(
    started: bool,
    startedAt: real,
    task: TaskRequest,
    overrun: bool,
    raised: Option<string>,
    usage: UsageLedger,
    executions: nat,
    gateCalls: nat,
    releases: nat,
    lastCall: Option<Event>,
    candidate: Option<CandidatePatch>,
    adopted: bool,
    announced: Option<StateTransition>,
    saved: seq<StateTransition>,
    references: seq<string>,
    gateCodes: seq<string>)

  const BLANK := History(false, 0.0, TaskRequest("", "", ""), false, None, EMPTY_LEDGER, 0, 0, 0, None, None, false, None, [], [], [])

  function SumUsage(a: UsageLedger, b: UsageLedger): UsageLedger {
    UsageLedger(
      a.inputTokens + b.inputTokens,
      a.outputTokens + b.outputTokens,
      a.llmRequests + b.llmRequests,
      a.executionAttempts + b.executionAttempts,
      a.gateAttempts + b.gateAttempts,
      a.moreEvidenceCycles + b.moreEvidenceCycles)
  }

  /** The exception of a port that an event reports. */
  function Exception(e: Event): Option<string> {
    match e
    case ChangeExecuted(Err(name)) => Some(name)
    case GateEvaluated(_, _, Err(name)) => Some(name)
    case ReleaseCalled(_, Err(name)) => Some(name)
    case RunRecorded(_, Err(name)) => Some(name)
    case OutcomeRecorded(_, Err(name)) => Some(name)
    case _ => None
  }

  function FirstRaised(h: History, e: Event): Option<string> {
    if h.raised.Some? then h.raised else Exception(e)
  }

  function Advance(h0: History, e: Event): History {
    var h := h0.(raised := FirstRaised(h0, e));
    match e
    case Started(at, task) => h.(started := true, startedAt := at, task := task)
    case BudgetChecked(_, passed) => h.(overrun := h.overrun || !passed)
    case ChangeExecuted(reply) =>
      h.(usage := SumUsage(h.usage, e.Charge()), executions := h.executions + 1, lastCall := Some(e),
         candidate := if reply.Ok? then reply.value.candidate else None)
    case GateEvaluated(_, _, reply) =>
      h.(usage := SumUsage(h.usage, e.Charge()), gateCalls := h.gateCalls + 1, lastCall := Some(e),
         references := h.references + (if reply.Ok? then [reply.value.evidenceReference] else []),
         gateCodes := h.gateCodes + if reply.Ok? then reply.value.reasonCodes else [])
    case ReleaseCalled(_, reply) =>
      h.(releases := h.releases + 1, lastCall := Some(e),
         references := h.references + if reply.Ok? then [reply.value] else [])
    case Transitioned(step) =>
      h.(announced := Some(step),
         adopted := h.adopted || step.to.CandidateAvailable?,
         usage := if step.to.MoreEvidence?
                  then h.usage.(moreEvidenceCycles := h.usage.moreEvidenceCycles + 1) else h.usage,
         references := h.references +
           if step.to.CandidateAvailable? && step.evidence.Some? then [step.evidence.value] else [])
    case RunRecorded(snapshot, Ok(reference)) =>
      h.(announced := None, saved := snapshot.transitions, references := h.references + [reference])
    case RunRecorded(_, Err(_)) => h.(announced := None)
    case OutcomeRecorded(_, _) => h
  }

  function HistoryOf(log: seq<Event>): History {
    if log == [] then BLANK
    else Advance(HistoryOf(log[..|log| - 1]), log[|log| - 1])
  }

  /** The state reached by a walk. */
  function EndOf(ts: seq<StateTransition>): RunState {
    if ts == [] then Created else ts[|ts| - 1].to
  }

  /** How a reported disposition must agree with the reported final state. */
  predicate Agrees(disposition: FinalDisposition, state: RunState) {
    match disposition
    case FinallyReleased => state == Released
    case FinallyHumanReview => state == HumanReviewRequired
    case FinallyBudgetExceeded => state == BudgetExceeded
    case FinallyRejected => state == ChangeFailed || state == GateFailed
    case FinallyPipelineError =>
      Terminal(state) || state in {Created, Validating, Ready, CandidateAvailable}
    case FinallyCancelled => false
  }

  predicate Passed(call: Option<Event>, c: CandidatePatch) {
    && call.Some? && call.value.GateEvaluated? && call.value.candidate == c
    && call.value.gate.Ok? && call.value.gate.value.disposition == GatePass
  }

  predicate Deployed(call: Option<Event>) {
    call.Some? && call.value.ReleaseCalled? && call.value.deployment.Ok?
  }

  /** A component may be called: no budget check has failed, the ledger is inside its
      five ceilings and no earlier component call raised. */
  predicate MayCall(d: TaskDefinition, h: History) {
    && !h.overrun
    && WithinLedger(d.budget, h.usage)
    && (h.lastCall.Some? ==> !h.lastCall.value.Raised?())
  }

  /** What the executor answered last. */
  predicate Answered(call: Option<Event>, succeeded: bool) {
    && call.Some? && call.value.ChangeExecuted? && call.value.execution.Ok?
    && call.value.execution.value.succeeded == succeeded
  }

  /** What the gate answered last. */
  predicate Ruled(call: Option<Event>, disposition: GateDisposition) {
    && call.Some? && call.value.GateEvaluated? && call.value.gate.Ok?
    && call.value.gate.value.disposition == disposition
  }

  /** What must have happened for a state to be entered. */
  predicate Warranted(d: TaskDefinition, h: History, to: RunState) {
    match to
    case CandidateAvailable => Answered(h.lastCall, true) && h.candidate.Some?
    case ChangeFailed => Answered(h.lastCall, false)
    case ReadyForRelease => Ruled(h.lastCall, GatePass)
    case GateFailed => Ruled(h.lastCall, GateFail)
    case MoreEvidence => Ruled(h.lastCall, GateMoreEvidence) && h.gateCalls <= d.maximumMoreEvidenceCycles
    case HumanReviewRequired =>
      || Ruled(h.lastCall, GateHumanReview)
      || (Ruled(h.lastCall, GateMoreEvidence) && h.gateCalls > d.maximumMoreEvidenceCycles)
    case Released => Deployed(h.lastCall)
    case BudgetExceeded => h.overrun
    case _ => !h.overrun
  }

  /** The evidence a transition carries: that of the answer it follows from. */
  function EvidenceFor(h: History, to: RunState): Option<string> {
    match to
    case CandidateAvailable => if h.candidate.Some? then Some(h.candidate.value.evidenceReference) else None
    case Released => if Deployed(h.lastCall) then Some(h.lastCall.value.deployment.value) else None
    case ReadyForRelease => GateEvidence(h.lastCall)
    case GateFailed => GateEvidence(h.lastCall)
    case HumanReviewRequired => GateEvidence(h.lastCall)
    case MoreEvidence => GateEvidence(h.lastCall)
    case _ => None
  }

  function GateEvidence(call: Option<Event>): Option<string> {
    if call.Some? && call.value.GateEvaluated? && call.value.gate.Ok?
    then Some(call.value.gate.value.evidenceReference) else None
  }

  /** The release states have been recorded, whatever was recorded since. */
  predicate ReachedRelease(saved: seq<StateTransition>) {
    || EndOf(saved) == ReadyForRelease
    || (saved != [] && saved[|saved| - 1].from == ReadyForRelease)
  }

  /** The reason code the orchestrator itself adds on the way. */
  function OwnCode(d: TaskDefinition, h: History): Option<string> {
    if h.overrun then None
    else if Answered(h.lastCall, false) then Some(FailureCode(h.lastCall.value.execution.value))
    else if Ruled(h.lastCall, GateMoreEvidence) && h.gateCalls > d.maximumMoreEvidenceCycles
    then Some("MORE_EVIDENCE_LIMIT_REACHED")
    else if Ruled(h.lastCall, GatePass) && !d.automaticReleaseAllowed && ReachedRelease(h.saved)
    then Some("AUTOMATIC_RELEASE_NOT_ALLOWED")
    else None
  }

  function FailureCode(result: ExecutionResult): string {
    if result.failureCode.Some? && result.failureCode.value != "" then result.failureCode.value
    else "CHANGE_EXECUTION_FAILED"
  }

  /** The codes of the gate, and the orchestrator's own. */
  function CodesSoFar(d: TaskDefinition, h: History): seq<string> {
    match OwnCode(d, h) case None => h.gateCodes case Some(code) => h.gateCodes + [code]
  }

  /** The run was closed because automatic release is off, not by an exception. */
  predicate Withheld(d: TaskDefinition, h: History) {
    && Ruled(h.lastCall, GatePass) && !d.automaticReleaseAllowed && h.raised.None?
    && EndOf(h.saved) == PipelineError
  }

  /** The reason codes an outcome must report, before repetitions are dropped. */
  function Codes(d: TaskDefinition, h: History, disposition: FinalDisposition): seq<string> {
    match disposition
    case FinallyBudgetExceeded => CodesSoFar(d, h) + ["RESOURCE_BUDGET_EXCEEDED"]
    case FinallyPipelineError =>
      if Withheld(d, h) then CodesSoFar(d, h)
      else CodesSoFar(d, h) + ["PIPELINE_EXCEPTION:" + ExceptionName(h)]
    case _ => CodesSoFar(d, h)
  }

  /** The executor claimed success without a candidate. */
  predicate CandidateMissing(h: History) {
    Answered(h.lastCall, true) && h.candidate.None?
  }

  /** The task was refused before anything was called. */
  predicate NotPermitted(d: TaskDefinition, h: History) {
    !Permitted(d, h.task) && h.lastCall.None?
  }

  /** What ended the guarded part of the run: the first exception of a port, unless the
      orchestrator raised its own before. */
  function ExceptionName(h: History): string {
    if CandidateMissing(h) || h.raised.None? then TypeName(OrchestratorFailure) else h.raised.value
  }

  predicate Legal(d: TaskDefinition, h: History, e: Event) {
    && (e.Started? <==> !h.started)
    && (e.RunRecorded? <==> h.announced.Some?)
    && match e
       case Started(_, _) => true
       case BudgetChecked(elapsed, passed) => passed <==> WithinBudget(d.budget, h.usage, elapsed)
       case Transitioned(step) =>
         && step.from == EndOf(h.saved) && step.to in Allowed(step.from) && Warranted(d, h, step.to)
         && step.evidence == EvidenceFor(h, step.to)
       case RunRecorded(snapshot, _) =>
         && Walk(snapshot.transitions, snapshot.state)
         && snapshot.transitions == h.saved + [h.announced.value]
         && snapshot.usage == h.usage
         && snapshot.startedAt == h.startedAt && snapshot.task == h.task
       case ChangeExecuted(_) => MayCall(d, h) && EndOf(h.saved) == ExecutingChange && h.executions == 0
       case GateEvaluated(c, cycle, _) =>
         && MayCall(d, h) && EndOf(h.saved) == Gating
         && h.candidate == Some(c)
         && cycle == h.gateCalls == h.usage.gateAttempts
         && cycle <= d.maximumMoreEvidenceCycles
       case ReleaseCalled(c, _) =>
         && MayCall(d, h) && EndOf(h.saved) == ReadyForRelease
         && d.automaticReleaseAllowed
         && h.candidate == Some(c)
         && Passed(h.lastCall, c)
         && h.releases == 0
       case OutcomeRecorded(o, _) =>
         && Agrees(o.disposition, o.finalState)
         && (o.disposition == FinallyReleased ==> Deployed(h.lastCall))
         && (o.disposition == FinallyBudgetExceeded <==> h.overrun)
         && (o.disposition == FinallyPipelineError ==>
               h.raised.Some? || CandidateMissing(h) || Withheld(d, h) || NotPermitted(d, h))
         && (o.disposition != FinallyPipelineError ==> o.finalState == EndOf(h.saved))
         && o.taskId == h.task.taskId && o.startedAt == h.startedAt
         && o.candidateId == (if h.adopted && h.candidate.Some? then Some(h.candidate.value.candidateId) else None)
         && o.usage == h.usage
         && o.evidence == Dedup(h.references)
         && o.reasonCodes == Dedup(Codes(d, h, o.disposition))
  }

  predicate AllLegal(d: TaskDefinition, log: seq<Event>) {
    log == [] ||
    (AllLegal(d, log[..|log| - 1]) && Legal(d, HistoryOf(log[..|log| - 1]), log[|log| - 1]))
  }

  /** `log` followed by `e`. */
  function Then(log: seq<Event>, e: Event): (r: seq<Event>)
    ensures HistoryOf(r) == Advance(HistoryOf(log), e)
    ensures forall d :: AllLegal(d, r) <==> AllLegal(d, log) && Legal(d, HistoryOf(log), e)
  {
    assert (log + [e])[..|log|] == log;
    log + [e]
  }

  lemma {:induction false} LegalPrefix(d: TaskDefinition, log: seq<Event>, n: nat)
    requires AllLegal(d, log) && n <= |log|
    ensures AllLegal(d, log[..n])
    decreases |log|
  {
    if n == |log| {
      assert log[..n] == log;
    } else {
      LegalPrefix(d, log[..|log| - 1], n);
      assert log[..|log| - 1][..n] == log[..n];
    }
  }

  /** Legality of a whole log, event by event. */
  lemma LegalAt(d: TaskDefinition, log: seq<Event>, i: nat)
    requires AllLegal(d, log) && i < |log|
    ensures AllLegal(d, log[..i]) && Legal(d, HistoryOf(log[..i]), log[i])
  {
    LegalPrefix(d, log, i + 1);
    assert log[..i + 1][..i] == log[..i];
  }

  // ----- Theorems about every legal log -------------------------------------

  /** At most one change execution, one release, and a gate bound that both the
      evidence-cycle limit and the gate-attempt budget enforce. */
  lemma {:induction false} CallBounds(d: TaskDefinition, log: seq<Event>)
    requires AllLegal(d, log)
    ensures HistoryOf(log).executions <= 1
    ensures HistoryOf(log).releases <= 1
    ensures HistoryOf(log).gateCalls <= MinNat(d.maximumMoreEvidenceCycles, d.budget.gateAttempts) + 1
    decreases |log|
  {
    if log != [] {
      var n := |log| - 1;
      CallBounds(d, log[..n]);
      CallBoundStep(d, HistoryOf(log[..n]), log[n]);
    }
  }

  lemma CallBoundStep(d: TaskDefinition, h: History, e: Event)
    requires Legal(d, h, e)
    ensures var next := Advance(h, e);
      && next.executions <= MaxNat(h.executions, 1) && next.releases <= MaxNat(h.releases, 1)
      && next.gateCalls
         <= MaxNat(h.gateCalls, MinNat(d.maximumMoreEvidenceCycles, d.budget.gateAttempts) + 1)
  {}

  /** No ceiling is overrun by more than the last call's own charge. */
  predicate OverrunWithinLastCall(b: ResourceBudget, h: History) {
    var last := if h.lastCall.Some? then h.lastCall.value.Charge() else EMPTY_LEDGER;
    && h.usage.executionAttempts <= b.executionAttempts + last.executionAttempts
    && h.usage.gateAttempts <= b.gateAttempts + last.gateAttempts
    && h.usage.inputTokens <= b.inputTokens + last.inputTokens
    && h.usage.outputTokens <= b.outputTokens + last.outputTokens
    && h.usage.llmRequests <= b.llmRequests + last.llmRequests
  }

  /** The usage before each component call was inside every ceiling, so the final
      usage exceeds a ceiling by at most one call. */
  lemma {:induction false} OverrunBound(d: TaskDefinition, log: seq<Event>)
    requires AllLegal(d, log)
    ensures OverrunWithinLastCall(d.budget, HistoryOf(log))
    decreases |log|
  {
    if log != [] {
      var n := |log| - 1;
      OverrunBound(d, log[..n]);
      OverrunStep(d, HistoryOf(log[..n]), log[n]);
    }
  }

  lemma OverrunStep(d: TaskDefinition, h: History, e: Event)
    requires Legal(d, h, e) && OverrunWithinLastCall(d.budget, h)
    ensures OverrunWithinLastCall(d.budget, Advance(h, e))
  {
    ChargeIsAdded(h, e);
  }

  lemma ChargeIsAdded(h: History, e: Event)
    ensures
      var u, v, charge := h.usage, Advance(h, e).usage, if e.Call?() then e.Charge() else EMPTY_LEDGER;
      && Advance(h, e).lastCall == (if e.Call?() then Some(e) else h.lastCall)
      && v.executionAttempts == u.executionAttempts + charge.executionAttempts
      && v.gateAttempts == u.gateAttempts + charge.gateAttempts
      && v.inputTokens == u.inputTokens + charge.inputTokens
      && v.outputTokens == u.outputTokens + charge.outputTokens
      && v.llmRequests == u.llmRequests + charge.llmRequests
  {}

  lemma CallsOfPrefix(log: seq<Event>, i: nat, j: int)
    requires i <= |log| && forall k :: 0 <= k < i && j < k ==> !log[..i][k].Call?()
    ensures forall k :: 0 <= k < i && j < k ==> !log[k].Call?()
  {
    assert forall k :: 0 <= k < i ==> log[..i][k] == log[k];
  }

  /** The last component call of a history is an event of the log after which no
      component was called. */
  lemma {:induction false} LastCallIsLast(log: seq<Event>) returns (j: int)
    ensures HistoryOf(log).lastCall.None? ==> forall k :: 0 <= k < |log| ==> !log[k].Call?()
    ensures HistoryOf(log).lastCall.Some? ==>
      && 0 <= j < |log| && log[j] == HistoryOf(log).lastCall.value
      && forall k :: j < k < |log| ==> !log[k].Call?()
    decreases |log|
  {
    j := -1;
    if log != [] {
      var n := |log| - 1;
      var i := LastCallIsLast(log[..n]);
      CallsOfPrefix(log, n, i);
      j := if log[n].Call?() then n else i;
    }
  }

  lemma ReleaseIsLast(d: TaskDefinition, log: seq<Event>, i: nat, k: nat)
    requires AllLegal(d, log) && i < k < |log| && log[i].ReleaseCalled?
    ensures !log[k].ReleaseCalled?
  {
    LegalAt(d, log, k);
    assert log[..k][i] == log[i];
    ReleaseIsCounted(log[..k], i);
  }

  lemma {:induction false} ReleaseIsCounted(log: seq<Event>, k: nat)
    requires k < |log| && log[k].ReleaseCalled?
    ensures HistoryOf(log).releases > 0
    decreases |log|
  {
    if k < |log| - 1 {
      ReleaseIsCounted(log[..|log| - 1], k);
    }
  }

  /** What the history owes the state last recorded and the state announced. */
  predicate Earned(d: TaskDefinition, h: History) {
    && (h.announced.Some? ==> Warranted(d, h, h.announced.value.to))
    && (EndOf(h.saved) in {CandidateAvailable, ChangeFailed, GateFailed, MoreEvidence, HumanReviewRequired,
                           Released, BudgetExceeded}
        ==> Warranted(d, h, EndOf(h.saved)))
  }

  lemma {:induction false} StatesAreEarned(d: TaskDefinition, log: seq<Event>)
    requires AllLegal(d, log)
    ensures Earned(d, HistoryOf(log))
    decreases |log|
  {
    if log != [] {
      var n := |log| - 1;
      StatesAreEarned(d, log[..n]);
      EarnedStep(d, HistoryOf(log[..n]), log[n]);
    }
  }

  lemma EarnedStep(d: TaskDefinition, h: History, e: Event)
    requires Legal(d, h, e) && Earned(d, h)
    ensures Earned(d, Advance(h, e))
  {
    if e.Call?() { EarnedCall(d, h, e); } else if e.RunRecorded? { EarnedRecord(d, h, e); }
  }

  lemma EarnedRecord(d: TaskDefinition, h: History, e: Event)
    requires Legal(d, h, e) && Earned(d, h) && e.RunRecorded?
    ensures Earned(d, Advance(h, e))
  {
    if e.stored.Ok? { assert EndOf(e.snapshot.transitions) == h.announced.value.to; }
  }

  /** A call changes the last answer only while no state depends on the one before. */
  lemma EarnedCall(d: TaskDefinition, h: History, e: Event)
    requires Legal(d, h, e) && e.Call?()
    ensures Earned(d, Advance(h, e))
  {}

  lemma AnnouncedJustBefore(d: TaskDefinition, log: seq<Event>)
    requires AllLegal(d, log) && HistoryOf(log).announced.Some?
    ensures log != [] && log[|log| - 1] == Transitioned(HistoryOf(log).announced.value)
  {
    assert Legal(d, HistoryOf(log[..|log| - 1]), log[|log| - 1]);
  }

  /** The state a component may be called in. */
  function CallState(e: Event): RunState
    requires e.Call?()
  {
    match e
    case ChangeExecuted(_) => ExecutingChange
    case GateEvaluated(_, _, _) => Gating
    case ReleaseCalled(_, _) => ReadyForRelease
  }

  /** A component is called only when the last run the evidence port accepted is in the
      state that announces the call. */
  lemma CallsFollowRecords(d: TaskDefinition, log: seq<Event>, i: nat)
    requires AllLegal(d, log) && i < |log| && log[i].Call?()
    ensures
      var accepted := Snapshots(log[..i]);
      accepted != [] && accepted[|accepted| - 1].state == CallState(log[i])
  {
    LegalAt(d, log, i);
    SavedStateIsRecorded(d, log[..i]);
  }

  lemma SavedStateIsRecorded(d: TaskDefinition, log: seq<Event>)
    requires AllLegal(d, log) && EndOf(HistoryOf(log).saved) != Created
    ensures
      var accepted := Snapshots(log);
      accepted != [] && accepted[|accepted| - 1].state == EndOf(HistoryOf(log).saved)
  {
    SavedIsLastSnapshot(log);
    SnapshotsFormOneWalk(d, log);
    LastSnapshotEnds(Snapshots(log), HistoryOf(log).saved);
  }

  lemma LastSnapshotEnds(ss: seq<OrchestrationRun>, saved: seq<StateTransition>)
    requires OneWalk(ss) && saved == (if ss == [] then [] else ss[|ss| - 1].transitions) && EndOf(saved) != Created
    ensures ss != [] && ss[|ss| - 1].state == EndOf(saved)
  {
    assert ss != [] && WalkAt(ss, |ss| - 1);
  }

  predicate FailedCheck(e: Event) { e.BudgetChecked? && !e.passed }

  predicate ChecksFailed(log: seq<Event>) {
    exists k :: 0 <= k < |log| && FailedCheck(log[k])
  }

  lemma ChecksFailedThen(log: seq<Event>)
    requires log != []
    ensures ChecksFailed(log) <==> ChecksFailed(log[..|log| - 1]) || FailedCheck(log[|log| - 1])
  {
    var front := log[..|log| - 1];
    if ChecksFailed(front) {
      var k :| 0 <= k < |front| && FailedCheck(front[k]);
      assert FailedCheck(log[k]);
    }
    if ChecksFailed(log) && !FailedCheck(log[|log| - 1]) {
      var k :| 0 <= k < |log| && FailedCheck(log[k]);
      assert FailedCheck(front[k]);
    }
  }

  lemma {:induction false} OverrunIsFailedCheck(log: seq<Event>)
    ensures HistoryOf(log).overrun <==> ChecksFailed(log)
    decreases |log|
  {
    if log != [] {
      OverrunIsFailedCheck(log[..|log| - 1]);
      ChecksFailedThen(log);
    }
  }

  /** The runs the evidence port accepted, in order. */
  function Snapshots(log: seq<Event>): seq<OrchestrationRun> {
    if log == [] then []
    else
      var e := log[|log| - 1];
      Snapshots(log[..|log| - 1]) + if e.RunRecorded? && e.stored.Ok? then [e.snapshot] else []
  }

  /** Snapshots that are walks from CREATED, each extending the one before it by
      exactly one edge. */
  predicate OneWalk(ss: seq<OrchestrationRun>) {
    forall k :: 0 <= k < |ss| ==> WalkAt(ss, k)
  }

  predicate WalkAt(ss: seq<OrchestrationRun>, k: nat)
    requires k < |ss|
  {
    && Walk(ss[k].transitions, ss[k].state)
    && |ss[k].transitions| == k + 1
    && (k > 0 ==> ss[k - 1].transitions == ss[k].transitions[..k])
  }

  /** What the evidence port accepted is one growing walk, however many of the
      records it was asked to store failed. */
  lemma {:induction false} SnapshotsFormOneWalk(d: TaskDefinition, log: seq<Event>)
    requires AllLegal(d, log)
    ensures OneWalk(Snapshots(log))
    decreases |log|
  {
    if log != [] {
      var n := |log| - 1;
      SnapshotsFormOneWalk(d, log[..n]);
      SavedIsLastSnapshot(log[..n]);
      if log[n].RunRecorded? && log[n].stored.Ok? {
        SnapshotsGrow(Snapshots(log[..n]), log[n].snapshot, HistoryOf(log[..n]).announced.value);
      } else {
        assert Snapshots(log) == Snapshots(log[..n]);
      }
    }
  }

  lemma SnapshotsGrow(ss: seq<OrchestrationRun>, snapshot: OrchestrationRun, step: StateTransition)
    requires OneWalk(ss) && Walk(snapshot.transitions, snapshot.state)
    requires snapshot.transitions == (if ss == [] then [] else ss[|ss| - 1].transitions) + [step]
    ensures OneWalk(ss + [snapshot])
  {
    var longer := ss + [snapshot];
    forall k | 0 <= k < |longer|
      ensures WalkAt(longer, k)
    {
      if k < |ss| {
        assert WalkAt(ss, k);
      } else {
        assert longer[k] == snapshot;
        if k > 0 {
          assert WalkAt(ss, k - 1) && longer[k - 1] == ss[k - 1];
          assert snapshot.transitions[..k] == ss[k - 1].transitions;
        }
      }
    }
  }

  lemma {:induction false} SavedIsLastSnapshot(log: seq<Event>)
    ensures HistoryOf(log).saved ==
      if Snapshots(log) == [] then [] else Snapshots(log)[|Snapshots(log)| - 1].transitions
    decreases |log|
  {
    if log != [] {
      var front, e := log[..|log| - 1], log[|log| - 1];
      SavedIsLastSnapshot(front);
      assert HistoryOf(log) == Advance(HistoryOf(front), e);
      if !(e.RunRecorded? && e.stored.Ok?) {
        assert Snapshots(log) == Snapshots(front);
      }
    }
  }
}
