/** Values of the orchestration control plane. */
module RunModel {
  import opened Prelude
  import Text

  datatype RunState =
    | Created | Validating | Ready | ExecutingChange | CandidateAvailable
    | Gating | MoreEvidence | ReadyForRelease | HumanReviewRequired | Released
    | FailedValidation | ChangeFailed | GateFailed | BudgetExceeded
    | PipelineError | Cancelled

  datatype GateDisposition = GatePass | GateFail | GateHumanReview | GateMoreEvidence

  datatype FinalDisposition =
    | FinallyReleased | FinallyRejected | FinallyHumanReview
    | FinallyBudgetExceeded | FinallyPipelineError | FinallyCancelled

  datatype TaskRequest = TaskRequest(taskId: string, taskType: string, repositoryUri: string)

  datatype ResourceBudget = ResourceBudget(
    executionAttempts: nat,
    gateAttempts: nat,
    inputTokens: nat,
    outputTokens: nat,
    llmRequests: nat,
    elapsedSeconds: real)

  datatype TaskDefinition = TaskDefinition(
    enabled: bool,
    allowedPatterns: seq<string>,
    budget: ResourceBudget,
    maximumMoreEvidenceCycles: nat,
    automaticReleaseAllowed: bool)

  /** The repository matches one of the definition's patterns. */
  predicate Permitted(d: TaskDefinition, task: TaskRequest) {
    exists p :: p in d.allowedPatterns && Text.Contains(task.repositoryUri, p)
  }

  datatype CandidatePatch = CandidatePatch(candidateId: string, evidenceReference: string)

  /** LLM consumption one component reports for one call. */
  datatype Consumption = Consumption(inputTokens: nat, outputTokens: nat, llmRequests: nat)

  datatype ExecutionResult = ExecutionResult(
    succeeded: bool,
    candidate: Option<CandidatePatch>,
    consumed: Consumption,
    failureCode: Option<string>)

  datatype GateReply = GateReply(
    disposition: GateDisposition,
    evidenceReference: string,
    consumed: Consumption,
    reasonCodes: seq<string>)

  datatype UsageLedger = UsageLedger(
    inputTokens: nat,
    outputTokens: nat,
    llmRequests: nat,
    executionAttempts: nat,
    gateAttempts: nat,
    moreEvidenceCycles: nat)

  const EMPTY_LEDGER := UsageLedger(0, 0, 0, 0, 0, 0)

  datatype StateTransition = StateTransition(
    from: RunState,
    to: RunState,
    at: real,
    evidence: Option<string>)

  datatype OrchestrationRun = OrchestrationRun(
    task: TaskRequest,
    state: RunState,
    startedAt: real,
    updatedAt: real,
    usage: UsageLedger,
    candidate: Option<CandidatePatch>,
    transitions: seq<StateTransition>)

  datatype RunOutcome = RunOutcome(
    taskId: string,
    finalState: RunState,
    disposition: FinalDisposition,
    candidateId: Option<string>,
    startedAt: real,
    completedAt: real,
    usage: UsageLedger,
    evidence: seq<string>,
    reasonCodes: seq<string>)

  /** The exceptions that matter to the control flow of one run. */
  datatype Failure =
    | UnsupportedTaskType
    | BudgetOverrun
    | InvalidTransition
    | OrchestratorFailure
    | PortFailure(typeName: string)

  function TypeName(f: Failure): string {
    match f
    case UnsupportedTaskType => "UnsupportedTaskTypeError"
    case BudgetOverrun => "BudgetExceededError"
    case InvalidTransition => "InvalidStateTransitionError"
    case OrchestratorFailure => "OrchestratorError"
    case PortFailure(name) => name
  }
}
