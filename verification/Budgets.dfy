/** Cumulative resource ceilings of one run. */
module Budgets {
  import opened RunModel

  /** The five ceilings that only depend on the ledger. */
  predicate WithinLedger(b: ResourceBudget, u: UsageLedger) {
    && u.executionAttempts <= b.executionAttempts
    && u.gateAttempts <= b.gateAttempts
    && u.inputTokens <= b.inputTokens
    && u.outputTokens <= b.outputTokens
    && u.llmRequests <= b.llmRequests
  }

  predicate WithinBudget(b: ResourceBudget, u: UsageLedger, elapsed: real) {
    WithinLedger(b, u) && elapsed <= b.elapsedSeconds
  }

  function AddConsumption(u: UsageLedger, c: Consumption): UsageLedger {
    u.(inputTokens := u.inputTokens + c.inputTokens,
       outputTokens := u.outputTokens + c.outputTokens,
       llmRequests := u.llmRequests + c.llmRequests)
  }

  function AddExecutionUsage(u: UsageLedger, c: Consumption): UsageLedger {
    AddConsumption(u, c).(executionAttempts := u.executionAttempts + 1)
  }

  function AddGateUsage(u: UsageLedger, c: Consumption): UsageLedger {
    AddConsumption(u, c).(gateAttempts := u.gateAttempts + 1)
  }
}
