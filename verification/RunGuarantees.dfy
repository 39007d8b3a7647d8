/** What a reader of a legal log may conclude, stated on its events alone. `Orchestrator.Run`
    only produces legal logs. */
module RunGuarantees {
  import opened Prelude
  import opened RunModel
  import opened RunHistory
  import Text

  // ----- Usage --------------------------------------------------------------------

  /** The consumption a component reported with its answer. */
  function Reported(e: Event): Consumption {
    match e
    case ChangeExecuted(Ok(r)) => r.consumed
    case GateEvaluated(_, _, Ok(r)) => r.consumed
    case _ => Consumption(0, 0, 0)
  }

  function InputTokens(c: Consumption): nat { c.inputTokens }
  function OutputTokens(c: Consumption): nat { c.outputTokens }
  function LlmRequests(c: Consumption): nat { c.llmRequests }

  function Total(log: seq<Event>, of: Consumption -> nat): nat {
    if log == [] then 0 else Total(log[..|log| - 1], of) + of(Reported(log[|log| - 1]))
  }

  function Occurrences(log: seq<Event>, kind: Event -> bool): nat {
    if log == [] then 0 else Occurrences(log[..|log| - 1], kind) + if kind(log[|log| - 1]) then 1 else 0
  }

  predicate ExecutorAnswered(e: Event) { e.ChangeExecuted? && e.execution.Ok? }
  predicate GateAnswered(e: Event) { e.GateEvaluated? && e.gate.Ok? }
  predicate CycleEntered(e: Event) { e.Transitioned? && e.step.to.MoreEvidence? }

  /** `u` is what the log adds up to: the tokens and requests the components reported, one
      attempt for each that answered, and the evidence cycles. */
  predicate SumsUp(log: seq<Event>, u: UsageLedger) {
    && u.inputTokens == Total(log, InputTokens)
    && u.outputTokens == Total(log, OutputTokens)
    && u.llmRequests == Total(log, LlmRequests)
    && u.executionAttempts == Occurrences(log, ExecutorAnswered)
    && u.gateAttempts == Occurrences(log, GateAnswered)
    && u.moreEvidenceCycles == Occurrences(log, CycleEntered)
  }

  lemma {:induction false} LedgerSumsUp(log: seq<Event>)
    ensures SumsUp(log, HistoryOf(log).usage)
    decreases |log|
  {
    if log != [] {
      LedgerSumsUp(log[..|log| - 1]);
      UsageThen(HistoryOf(log[..|log| - 1]), log[|log| - 1]);
    }
  }

  lemma UsageThen(h: History, e: Event)
    ensures
      var u, v := h.usage, Advance(h, e).usage;
      && v.inputTokens == u.inputTokens + Reported(e).inputTokens
      && v.outputTokens == u.outputTokens + Reported(e).outputTokens
      && v.llmRequests == u.llmRequests + Reported(e).llmRequests
      && v.executionAttempts == u.executionAttempts + (if ExecutorAnswered(e) then 1 else 0)
      && v.gateAttempts == u.gateAttempts + (if GateAnswered(e) then 1 else 0)
      && v.moreEvidenceCycles == u.moreEvidenceCycles + (if CycleEntered(e) then 1 else 0)
  {}

  /** Every recorded run and every recorded outcome reports exactly what had been used. */
  lemma RecordedUsageSumsUp(d: TaskDefinition, log: seq<Event>, i: nat)
    requires AllLegal(d, log) && i < |log|
    ensures log[i].RunRecorded? ==> SumsUp(log[..i], log[i].snapshot.usage)
    ensures log[i].OutcomeRecorded? ==> SumsUp(log[..i], log[i].outcome.usage)
  {
    LegalAt(d, log, i);
    LedgerSumsUp(log[..i]);
  }

  /** A reported usage exceeds a ceiling by no more than the last component call used. */
  lemma OverrunIsOneCall(d: TaskDefinition, log: seq<Event>, i: nat) returns (j: int)
    requires AllLegal(d, log) && i < |log| && log[i].OutcomeRecorded?
    ensures j < i && forall k :: 0 <= k < i && j < k ==> !log[k].Call?()
    ensures
      var u, b := log[i].outcome.usage, d.budget;
      var last := if j >= 0 then Reported(log[j]) else Consumption(0, 0, 0);
      && u.inputTokens <= b.inputTokens + last.inputTokens
      && u.outputTokens <= b.outputTokens + last.outputTokens
      && u.llmRequests <= b.llmRequests + last.llmRequests
      && u.executionAttempts <= b.executionAttempts + 1
      && u.gateAttempts <= b.gateAttempts + 1
  {
    LegalAt(d, log, i);
    OverrunBound(d, log[..i]);
    j := LastCallIsLast(log[..i]);
    if HistoryOf(log[..i]).lastCall.None? { j := -1; }
    CallsOfPrefix(log, i, j);
  }

  /** The first event starts the run, and says which task and when. */
  lemma {:induction false} StartIsFirst(d: TaskDefinition, log: seq<Event>)
    requires AllLegal(d, log) && log != []
    ensures log[0] == Started(HistoryOf(log).startedAt, HistoryOf(log).task) && HistoryOf(log).started
    decreases |log|
  {
    var n := |log| - 1;
    if n > 0 {
      StartIsFirst(d, log[..n]);
      StartStays(d, HistoryOf(log[..n]), log[n]);
    }
  }

  lemma StartStays(d: TaskDefinition, h: History, e: Event)
    requires h.started && Legal(d, h, e)
    ensures
      var next := Advance(h, e);
      next.started && next.startedAt == h.startedAt && next.task == h.task
  {}

  // ----- Calls -----------------------------------------------------------------------

  /** The last gate call of a history counts the ones before it; the candidate is the last
      one returned. */
  predicate Consistent(d: TaskDefinition, h: History) {
    && (h.lastCall.Some? && h.lastCall.value.GateEvaluated? ==>
          h.gateCalls == h.lastCall.value.cycle + 1 && h.lastCall.value.cycle <= d.maximumMoreEvidenceCycles)
    && (h.lastCall.Some? && h.lastCall.value.ChangeExecuted? && h.lastCall.value.execution.Ok? ==>
          h.candidate == h.lastCall.value.execution.value.candidate)
  }

  lemma {:induction false} HistoryIsConsistent(d: TaskDefinition, log: seq<Event>)
    requires AllLegal(d, log)
    ensures Consistent(d, HistoryOf(log))
    decreases |log|
  {
    if log != [] {
      HistoryIsConsistent(d, log[..|log| - 1]);
      ConsistentStep(d, HistoryOf(log[..|log| - 1]), log[|log| - 1]);
    }
  }

  lemma ConsistentStep(d: TaskDefinition, h: History, e: Event)
    requires Legal(d, h, e) && Consistent(d, h)
    ensures Consistent(d, Advance(h, e))
  {}

  predicate GateCalled(e: Event) { e.GateEvaluated? }

  lemma {:induction false} GateCallsAreCounted(log: seq<Event>)
    ensures HistoryOf(log).gateCalls == Occurrences(log, GateCalled)
    decreases |log|
  {
    if log != [] { GateCallsAreCounted(log[..|log| - 1]); }
  }

  /** The gate is called for the candidate the executor returned, with the number of the
      calls before as its cycle, and that number is within both limits. */
  lemma GateCallsAreBounded(d: TaskDefinition, log: seq<Event>, i: nat)
    requires AllLegal(d, log) && i < |log| && log[i].GateEvaluated?
    ensures log[i].cycle == Occurrences(log[..i], GateCalled)
    ensures log[i].cycle <= d.maximumMoreEvidenceCycles && log[i].cycle <= d.budget.gateAttempts
    ensures exists j :: 0 <= j < i && log[j].ChangeExecuted? && log[j].execution.Ok?
                        && log[j].execution.value.candidate == Some(log[i].candidate)
  {
    LegalAt(d, log, i);
    GateCallsAreCounted(log[..i]);
    CandidateWasReturned(log[..i]);
    var j :| 0 <= j < i && ReturnsCandidate(log[..i][j], log[i].candidate);
    assert log[j] == log[..i][j];
  }

  predicate ReturnsCandidate(e: Event, c: CandidatePatch) {
    e.ChangeExecuted? && e.execution.Ok? && e.execution.value.candidate == Some(c)
  }

  lemma {:induction false} CandidateWasReturned(log: seq<Event>)
    requires HistoryOf(log).candidate.Some?
    ensures exists j :: 0 <= j < |log| && ReturnsCandidate(log[j], HistoryOf(log).candidate.value)
    decreases |log|
  {
    var front, e := log[..|log| - 1], log[|log| - 1];
    if e.ChangeExecuted? {
      assert ReturnsCandidate(log[|log| - 1], HistoryOf(log).candidate.value);
    } else {
      CandidateWasReturned(front);
      var j :| 0 <= j < |front| && ReturnsCandidate(front[j], HistoryOf(front).candidate.value);
      assert log[j] == front[j];
    }
  }

  /** Whenever the release port is called, release is automatic, it is the first such call,
      what was used is within all five ceilings, and the component call just before it was
      a PASS of the gate for that same candidate. */
  lemma ReleaseIsJustified(d: TaskDefinition, log: seq<Event>, i: nat) returns (j: nat)
    requires AllLegal(d, log) && i < |log| && log[i].ReleaseCalled?
    ensures d.automaticReleaseAllowed
    ensures forall k :: 0 <= k < |log| && log[k].ReleaseCalled? ==> k == i
    ensures
      && j < i && log[j].GateEvaluated? && log[j].candidate == log[i].released
      && log[j].gate.Ok? && log[j].gate.value.disposition == GatePass
    ensures forall k :: j < k < i ==> !log[k].Call?()
    ensures
      && Total(log[..i], InputTokens) <= d.budget.inputTokens
      && Total(log[..i], OutputTokens) <= d.budget.outputTokens
      && Total(log[..i], LlmRequests) <= d.budget.llmRequests
      && Occurrences(log[..i], ExecutorAnswered) <= d.budget.executionAttempts
      && Occurrences(log[..i], GateAnswered) <= d.budget.gateAttempts
  {
    LegalAt(d, log, i);
    LedgerSumsUp(log[..i]);
    j := LastCallIsLast(log[..i]);
    CallsOfPrefix(log, i, j);
    forall k | 0 <= k < |log| && log[k].ReleaseCalled?
      ensures k == i
    {
      if k < i { ReleaseIsLast(d, log, k, i); } else if i < k { ReleaseIsLast(d, log, i, k); }
    }
  }

  /** After a failed budget check no component is called again. */
  lemma FailedCheckEndsCalls(d: TaskDefinition, log: seq<Event>, i: nat, k: nat)
    requires AllLegal(d, log) && i < k < |log| && log[i].BudgetChecked? && !log[i].passed
    ensures !log[k].ChangeExecuted? && !log[k].GateEvaluated? && !log[k].ReleaseCalled?
  {
    LegalAt(d, log, k);
    OverrunIsFailedCheck(log[..k]);
    assert FailedCheck(log[..k][i]);
  }

  // ----- Records and outcomes ------------------------------------------------------------

  /** What the very last component call, if any, answered. */
  lemma LastCall(log: seq<Event>, i: nat) returns (j: int)
    requires i <= |log|
    ensures j < i && forall k :: 0 <= k < i && j < k ==> !log[k].Call?()
    ensures j >= 0 ==> HistoryOf(log[..i]).lastCall == Some(log[j])
    ensures j < 0 ==> HistoryOf(log[..i]).lastCall.None?
  {
    j := LastCallIsLast(log[..i]);
    if HistoryOf(log[..i]).lastCall.None? { j := -1; }
    CallsOfPrefix(log, i, j);
  }

  /** Every recorded run was announced by the event just before its record, and its state
      was entered on what warrants it: log[j] is the last component call before. */
  lemma RecordsFollowAnswers(d: TaskDefinition, log: seq<Event>, i: nat) returns (j: int)
    requires AllLegal(d, log) && i < |log| && log[i].RunRecorded?
    ensures
      var ts := log[i].snapshot.transitions;
      ts != [] && i > 0 && log[i - 1] == Transitioned(ts[|ts| - 1]) && log[i].snapshot.state == ts[|ts| - 1].to
    ensures j < i && forall k :: 0 <= k < i && j < k ==> !log[k].Call?()
    ensures log[i].snapshot.state in {CandidateAvailable, ChangeFailed} ==>
      && j >= 0 && log[j].ChangeExecuted? && log[j].execution.Ok?
      && (log[i].snapshot.state == ChangeFailed <==> !log[j].execution.value.succeeded)
      && (log[i].snapshot.state == CandidateAvailable ==> log[j].execution.value.candidate.Some?)
    ensures log[i].snapshot.state in {ReadyForRelease, GateFailed, MoreEvidence, HumanReviewRequired} ==>
      && j >= 0 && log[j].GateEvaluated? && log[j].gate.Ok?
      && match log[j].gate.value.disposition
         case GatePass => log[i].snapshot.state == ReadyForRelease
         case GateFail => log[i].snapshot.state == GateFailed
         case GateHumanReview => log[i].snapshot.state == HumanReviewRequired
         case GateMoreEvidence =>
           log[i].snapshot.state ==
           if log[j].cycle < d.maximumMoreEvidenceCycles then MoreEvidence else HumanReviewRequired
    ensures log[i].snapshot.state == Released ==> j >= 0 && log[j].ReleaseCalled? && log[j].deployment.Ok?
    ensures log[i].snapshot.state == BudgetExceeded ==>
      exists k :: 0 <= k < i && log[k].BudgetChecked? && !log[k].passed
  {
    RecordIsWarranted(d, log, i);
    j := LastCall(log, i);
    WarrantMeans(d, HistoryOf(log[..i]), log[i].snapshot.state);
    SomeCheckFailed(log, i);
  }

  lemma RecordIsWarranted(d: TaskDefinition, log: seq<Event>, i: nat)
    requires AllLegal(d, log) && i < |log| && log[i].RunRecorded?
    ensures
      var ts := log[i].snapshot.transitions;
      ts != [] && i > 0 && log[i - 1] == Transitioned(ts[|ts| - 1]) && log[i].snapshot.state == ts[|ts| - 1].to
    ensures Warranted(d, HistoryOf(log[..i]), log[i].snapshot.state) && Consistent(d, HistoryOf(log[..i]))
  {
    LegalAt(d, log, i);
    StatesAreEarned(d, log[..i]);
    AnnouncedJustBefore(d, log[..i]);
    HistoryIsConsistent(d, log[..i]);
  }

  /** The warrant of a state, in terms of the last answer. */
  lemma WarrantMeans(d: TaskDefinition, h: History, to: RunState)
    requires Warranted(d, h, to) && Consistent(d, h)
    ensures to in {CandidateAvailable, ChangeFailed} ==>
      && h.lastCall.Some? && h.lastCall.value.ChangeExecuted? && h.lastCall.value.execution.Ok?
      && (to == ChangeFailed <==> !h.lastCall.value.execution.value.succeeded)
      && (to == CandidateAvailable ==> h.lastCall.value.execution.value.candidate.Some?)
    ensures to in {ReadyForRelease, GateFailed, MoreEvidence, HumanReviewRequired} ==>
      && h.lastCall.Some? && h.lastCall.value.GateEvaluated? && h.lastCall.value.gate.Ok?
      && match h.lastCall.value.gate.value.disposition
         case GatePass => to == ReadyForRelease
         case GateFail => to == GateFailed
         case GateHumanReview => to == HumanReviewRequired
         case GateMoreEvidence =>
           to == if h.lastCall.value.cycle < d.maximumMoreEvidenceCycles then MoreEvidence else HumanReviewRequired
    ensures to == Released ==> h.lastCall.Some? && h.lastCall.value.ReleaseCalled? && h.lastCall.value.deployment.Ok?
    ensures to == BudgetExceeded ==> h.overrun
  {}

  lemma SomeCheckFailed(log: seq<Event>, i: nat)
    requires i <= |log|
    ensures HistoryOf(log[..i]).overrun <==> exists k :: 0 <= k < i && log[k].BudgetChecked? && !log[k].passed
  {
    OverrunIsFailedCheck(log[..i]);
    if HistoryOf(log[..i]).overrun {
      var k :| 0 <= k < i && FailedCheck(log[..i][k]);
      assert log[k] == log[..i][k];
    }
    if k :| 0 <= k < i && log[k].BudgetChecked? && !log[k].passed {
      assert FailedCheck(log[..i][k]);
    }
  }

  /** A port raised `name`. */
  predicate Raises(e: Event, name: string) {
    || (e.ChangeExecuted? && e.execution == Err(name))
    || (e.GateEvaluated? && e.gate == Err(name))
    || (e.ReleaseCalled? && e.deployment == Err(name))
    || (e.RunRecorded? && e.stored == Err(name))
    || (e.OutcomeRecorded? && e.receipt == Err(name))
  }

  lemma RaisedThen(h: History, e: Event)
    ensures Advance(h, e).raised == if h.raised.Some? then h.raised else Exception(e)
    ensures Exception(e).Some? ==> Raises(e, Exception(e).value)
  {}

  lemma {:induction false} SomePortRaised(log: seq<Event>)
    requires HistoryOf(log).raised.Some?
    ensures exists k :: 0 <= k < |log| && Raises(log[k], HistoryOf(log).raised.value)
    decreases |log|
  {
    var front := log[..|log| - 1];
    RaisedThen(HistoryOf(front), log[|log| - 1]);
    if HistoryOf(front).raised.Some? {
      SomePortRaised(front);
      var k :| 0 <= k < |front| && Raises(front[k], HistoryOf(front).raised.value);
      assert log[k] == front[k];
    } else {
      assert Raises(log[|log| - 1], HistoryOf(log).raised.value);
    }
  }

  /** A reported outcome is true to the run. log[j] is the last component call before it. */
  lemma OutcomeIsTrue(d: TaskDefinition, log: seq<Event>, i: nat) returns (j: int)
    requires AllLegal(d, log) && i < |log| && log[i].OutcomeRecorded?
    ensures j < i && forall k :: 0 <= k < i && j < k ==> !log[k].Call?()
    ensures log[i].outcome.disposition == FinallyReleased ==>
      log[i].outcome.finalState == Released && j >= 0 && log[j].ReleaseCalled? && log[j].deployment.Ok?
    ensures log[i].outcome.disposition == FinallyRejected ==>
      j >= 0 &&
      if log[i].outcome.finalState == ChangeFailed
      then log[j].ChangeExecuted? && log[j].execution.Ok? && !log[j].execution.value.succeeded
      else
        && log[i].outcome.finalState == GateFailed
        && log[j].GateEvaluated? && log[j].gate.Ok? && log[j].gate.value.disposition == GateFail
    ensures log[i].outcome.disposition == FinallyHumanReview ==>
      && log[i].outcome.finalState == HumanReviewRequired
      && j >= 0 && log[j].GateEvaluated? && log[j].gate.Ok?
      && (log[j].gate.value.disposition == GateHumanReview
          || (log[j].gate.value.disposition == GateMoreEvidence && log[j].cycle == d.maximumMoreEvidenceCycles))
    ensures log[i].outcome.disposition == FinallyBudgetExceeded ==> log[i].outcome.finalState == BudgetExceeded
    ensures log[i].outcome.disposition == FinallyBudgetExceeded <==>
      exists k :: 0 <= k < i && log[k].BudgetChecked? && !log[k].passed
    ensures log[i].outcome.disposition != FinallyCancelled
    ensures log[0].Started? && log[i].outcome.taskId == log[0].task.taskId && log[i].outcome.startedAt == log[0].at
    ensures log[i].outcome.disposition != FinallyPipelineError ==>
      var accepted := Snapshots(log[..i]);
      accepted != [] && accepted[|accepted| - 1].state == log[i].outcome.finalState
  {
    OutcomeIsLegal(d, log, i);
    SomeCheckFailed(log, i);
    StartedBefore(d, log, i);
    j := LastCall(log, i);
    OutcomeMeans(d, HistoryOf(log[..i]), log[i].outcome);
    if log[i].outcome.disposition != FinallyPipelineError { SavedStateIsRecorded(d, log[..i]); }
  }

  lemma StartedBefore(d: TaskDefinition, log: seq<Event>, i: nat)
    requires AllLegal(d, log) && i < |log| && !log[i].Started?
    ensures i > 0 && log[0] == Started(HistoryOf(log[..i]).startedAt, HistoryOf(log[..i]).task)
  {
    LegalAt(d, log, i);
    assert i > 0;
    StartIsFirst(d, log[..i]);
  }

  lemma OutcomeIsLegal(d: TaskDefinition, log: seq<Event>, i: nat)
    requires AllLegal(d, log) && i < |log| && log[i].OutcomeRecorded?
    ensures AllLegal(d, log[..i]) && Earned(d, HistoryOf(log[..i])) && Consistent(d, HistoryOf(log[..i]))
    ensures Legal(d, HistoryOf(log[..i]), OutcomeRecorded(log[i].outcome, log[i].receipt))
  {
    LegalAt(d, log, i);
    StatesAreEarned(d, log[..i]);
    HistoryIsConsistent(d, log[..i]);
  }

  /** What an outcome rests on, in terms of the last answer. */
  lemma OutcomeMeans(d: TaskDefinition, h: History, o: RunOutcome)
    requires Earned(d, h) && Consistent(d, h) && exists receipt :: Legal(d, h, OutcomeRecorded(o, receipt))
    ensures o.disposition == FinallyReleased ==>
      && o.finalState == Released
      && h.lastCall.Some? && h.lastCall.value.ReleaseCalled? && h.lastCall.value.deployment.Ok?
    ensures o.disposition == FinallyRejected ==>
      h.lastCall.Some? &&
      if o.finalState == ChangeFailed
      then
        && h.lastCall.value.ChangeExecuted? && h.lastCall.value.execution.Ok?
        && !h.lastCall.value.execution.value.succeeded
      else
        && o.finalState == GateFailed
        && h.lastCall.value.GateEvaluated? && h.lastCall.value.gate.Ok?
        && h.lastCall.value.gate.value.disposition == GateFail
    ensures o.disposition == FinallyHumanReview ==>
      && o.finalState == HumanReviewRequired
      && h.lastCall.Some? && h.lastCall.value.GateEvaluated? && h.lastCall.value.gate.Ok?
      && (h.lastCall.value.gate.value.disposition == GateHumanReview
          || (h.lastCall.value.gate.value.disposition == GateMoreEvidence
              && h.lastCall.value.cycle == d.maximumMoreEvidenceCycles))
    ensures o.disposition == FinallyBudgetExceeded <==> h.overrun
    ensures o.disposition == FinallyBudgetExceeded ==> o.finalState == BudgetExceeded
    ensures o.disposition != FinallyCancelled
    ensures o.taskId == h.task.taskId && o.startedAt == h.startedAt
    ensures o.disposition != FinallyPipelineError ==> o.finalState == EndOf(h.saved) != Created
  {}

  /** The references an event leaves. */
  predicate Leaves(e: Event, reference: string) {
    match e
    case GateEvaluated(_, _, Ok(reply)) => reply.evidenceReference == reference
    case ReleaseCalled(_, Ok(deployment)) => deployment == reference
    case RunRecorded(_, Ok(stored)) => stored == reference
    case Transitioned(step) => step.to.CandidateAvailable? && step.evidence == Some(reference)
    case _ => false
  }

  lemma {:induction false} ReferencesAreLeft(log: seq<Event>, reference: string)
    ensures reference in HistoryOf(log).references <==> exists k :: 0 <= k < |log| && Leaves(log[k], reference)
    decreases |log|
  {
    if log != [] {
      var front, e := log[..|log| - 1], log[|log| - 1];
      ReferencesAreLeft(front, reference);
      ReferencesThen(HistoryOf(front), e, reference);
      if reference in HistoryOf(front).references {
        var k :| 0 <= k < |front| && Leaves(front[k], reference);
        assert log[k] == front[k];
      }
      if k :| 0 <= k < |front| && Leaves(log[k], reference) {
        assert front[k] == log[k];
      }
    }
  }

  lemma ReferencesThen(h: History, e: Event, reference: string)
    ensures reference in Advance(h, e).references <==> reference in h.references || Leaves(e, reference)
  {}

  /** The evidence of an outcome is that of the gate, of the release, of the candidate and of
      every accepted record, all of it and nothing else, each once. */
  lemma EvidenceIsComplete(d: TaskDefinition, log: seq<Event>, i: nat, reference: string)
    requires AllLegal(d, log) && i < |log| && log[i].OutcomeRecorded?
    ensures Distinct(log[i].outcome.evidence)
    ensures reference in log[i].outcome.evidence <==> exists k :: 0 <= k < i && Leaves(log[k], reference)
  {
    LegalAt(d, log, i);
    ReferencesAreLeft(log[..i], reference);
    if k :| 0 <= k < i && Leaves(log[..i][k], reference) {
      assert log[k] == log[..i][k];
    }
    if k :| 0 <= k < i && Leaves(log[k], reference) {
      assert log[k] == log[..i][k];
    }
  }

  /** A transition carries the evidence of the answer it follows from. */
  lemma TransitionsCarryEvidence(d: TaskDefinition, log: seq<Event>, i: nat) returns (j: int)
    requires AllLegal(d, log) && i < |log| && log[i].Transitioned?
    ensures j < i && forall k :: 0 <= k < i && j < k ==> !log[k].Call?()
    ensures log[i].step.to == CandidateAvailable ==>
      && j >= 0 && log[j].ChangeExecuted? && log[j].execution.Ok? && log[j].execution.value.candidate.Some?
      && log[i].step.evidence == Some(log[j].execution.value.candidate.value.evidenceReference)
    ensures log[i].step.to in {ReadyForRelease, GateFailed, MoreEvidence, HumanReviewRequired} ==>
      && j >= 0 && log[j].GateEvaluated? && log[j].gate.Ok?
      && log[i].step.evidence == Some(log[j].gate.value.evidenceReference)
    ensures log[i].step.to == Released ==>
      j >= 0 && log[j].ReleaseCalled? && log[j].deployment.Ok? && log[i].step.evidence == Some(log[j].deployment.value)
  {
    LegalAt(d, log, i);
    HistoryIsConsistent(d, log[..i]);
    j := LastCall(log, i);
    EvidenceMeans(d, HistoryOf(log[..i]), log[i].step.to);
  }

  lemma EvidenceMeans(d: TaskDefinition, h: History, to: RunState)
    requires Warranted(d, h, to) && Consistent(d, h)
    ensures to == CandidateAvailable ==>
      && h.lastCall.Some? && h.lastCall.value.ChangeExecuted? && h.lastCall.value.execution.Ok?
      && h.lastCall.value.execution.value.candidate.Some?
      && EvidenceFor(h, to) == Some(h.lastCall.value.execution.value.candidate.value.evidenceReference)
    ensures to in {ReadyForRelease, GateFailed, MoreEvidence, HumanReviewRequired} ==>
      && h.lastCall.Some? && h.lastCall.value.GateEvaluated? && h.lastCall.value.gate.Ok?
      && EvidenceFor(h, to) == Some(h.lastCall.value.gate.value.evidenceReference)
    ensures to == Released ==>
      && h.lastCall.Some? && h.lastCall.value.ReleaseCalled? && h.lastCall.value.deployment.Ok?
      && EvidenceFor(h, to) == Some(h.lastCall.value.deployment.value)
  {}

  predicate GivesCode(e: Event, code: string) {
    e.GateEvaluated? && e.gate.Ok? && code in e.gate.value.reasonCodes
  }

  lemma {:induction false} GateCodesAreGiven(log: seq<Event>, code: string)
    ensures code in HistoryOf(log).gateCodes <==> exists k :: 0 <= k < |log| && GivesCode(log[k], code)
    decreases |log|
  {
    if log != [] {
      var front, e := log[..|log| - 1], log[|log| - 1];
      GateCodesAreGiven(front, code);
      CodesThen(HistoryOf(front), e, code);
      if code in HistoryOf(front).gateCodes {
        var k :| 0 <= k < |front| && GivesCode(front[k], code);
        assert log[k] == front[k];
      }
      if k :| 0 <= k < |front| && GivesCode(log[k], code) {
        assert front[k] == log[k];
      }
    }
  }

  lemma CodesThen(h: History, e: Event, code: string)
    ensures code in Advance(h, e).gateCodes <==> code in h.gateCodes || GivesCode(e, code)
  {}

  /** A reported reason code is one of the gate's, or one of the orchestrator's own for what
      happened last; all of the gate's are reported. log[j] is the last component call. */
  lemma ReasonCodesHaveCauses(d: TaskDefinition, log: seq<Event>, i: nat, code: string) returns (j: int)
    requires AllLegal(d, log) && i < |log| && log[i].OutcomeRecorded?
    ensures j < i && forall k :: 0 <= k < i && j < k ==> !log[k].Call?()
    ensures (exists k :: 0 <= k < i && GivesCode(log[k], code)) ==> code in log[i].outcome.reasonCodes
    ensures code in log[i].outcome.reasonCodes ==>
      || (exists k :: 0 <= k < i && GivesCode(log[k], code))
      || (j >= 0 && log[j].ChangeExecuted? && log[j].execution.Ok? && !log[j].execution.value.succeeded
          && (log[j].execution.value.failureCode == Some(code) || code == "CHANGE_EXECUTION_FAILED"))
      || (j >= 0 && log[j].GateEvaluated? && log[j].gate.Ok? && log[j].gate.value.disposition == GateMoreEvidence
          && log[j].cycle == d.maximumMoreEvidenceCycles && code == "MORE_EVIDENCE_LIMIT_REACHED")
      || (j >= 0 && log[j].GateEvaluated? && log[j].gate.Ok? && log[j].gate.value.disposition == GatePass
          && !d.automaticReleaseAllowed && code == "AUTOMATIC_RELEASE_NOT_ALLOWED")
      || (log[i].outcome.disposition == FinallyBudgetExceeded && code == "RESOURCE_BUDGET_EXCEEDED")
      || (log[i].outcome.disposition == FinallyPipelineError && exists name :: code == "PIPELINE_EXCEPTION:" + name)
    ensures log[i].outcome.disposition == FinallyBudgetExceeded ==>
      "RESOURCE_BUDGET_EXCEEDED" in log[i].outcome.reasonCodes
  {
    OutcomeIsLegal(d, log, i);
    j := LastCall(log, i);
    var h := HistoryOf(log[..i]);
    GateCodesAreGiven(log[..i], code);
    if k :| 0 <= k < i && GivesCode(log[..i][k], code) {
      assert log[k] == log[..i][k];
    }
    if k :| 0 <= k < i && GivesCode(log[k], code) {
      assert log[k] == log[..i][k];
    }
    CodesMean(d, h, log[i].outcome, code);
  }

  lemma CodesMean(d: TaskDefinition, h: History, o: RunOutcome, code: string)
    requires Consistent(d, h) && exists receipt :: Legal(d, h, OutcomeRecorded(o, receipt))
    ensures code in h.gateCodes ==> code in o.reasonCodes
    ensures o.disposition == FinallyBudgetExceeded ==> "RESOURCE_BUDGET_EXCEEDED" in o.reasonCodes
    ensures code in o.reasonCodes ==>
      || code in h.gateCodes
      || (h.lastCall.Some? && h.lastCall.value.ChangeExecuted? && h.lastCall.value.execution.Ok?
          && !h.lastCall.value.execution.value.succeeded
          && (h.lastCall.value.execution.value.failureCode == Some(code) || code == "CHANGE_EXECUTION_FAILED"))
      || (h.lastCall.Some? && h.lastCall.value.GateEvaluated? && h.lastCall.value.gate.Ok?
          && h.lastCall.value.gate.value.disposition == GateMoreEvidence
          && h.lastCall.value.cycle == d.maximumMoreEvidenceCycles && code == "MORE_EVIDENCE_LIMIT_REACHED")
      || (h.lastCall.Some? && h.lastCall.value.GateEvaluated? && h.lastCall.value.gate.Ok?
          && h.lastCall.value.gate.value.disposition == GatePass
          && !d.automaticReleaseAllowed && code == "AUTOMATIC_RELEASE_NOT_ALLOWED")
      || (o.disposition == FinallyBudgetExceeded && code == "RESOURCE_BUDGET_EXCEEDED")
      || (o.disposition == FinallyPipelineError && exists name :: code == "PIPELINE_EXCEPTION:" + name)
  {
    assert o.reasonCodes == Dedup(Codes(d, h, o.disposition));
    if OwnCode(d, h).Some? { OwnCodeMeans(d, h); }
  }

  lemma OwnCodeMeans(d: TaskDefinition, h: History)
    requires OwnCode(d, h).Some? && Consistent(d, h)
    ensures
      var code := OwnCode(d, h).value;
      && h.lastCall.Some?
      && match h.lastCall.value
         case ChangeExecuted(Ok(r)) =>
           !r.succeeded && (r.failureCode == Some(code) || code == "CHANGE_EXECUTION_FAILED")
         case GateEvaluated(_, cycle, Ok(r)) =>
           || (r.disposition == GateMoreEvidence && cycle == d.maximumMoreEvidenceCycles
               && code == "MORE_EVIDENCE_LIMIT_REACHED")
           || (r.disposition == GatePass && !d.automaticReleaseAllowed && code == "AUTOMATIC_RELEASE_NOT_ALLOWED")
         case _ => false
  {}

  /** A run is only reported as PIPELINE_ERROR if a port raised, the executor claimed success
      without a candidate, the gate passed a candidate that may not be released
      automatically, or the repository matches no permitted pattern. */
  lemma PipelineErrorHasCause(d: TaskDefinition, log: seq<Event>, i: nat) returns (j: int)
    requires AllLegal(d, log) && i < |log| && log[i].OutcomeRecorded?
    requires log[i].outcome.disposition == FinallyPipelineError
    ensures j < i && forall k :: 0 <= k < i && j < k ==> !log[k].Call?()
    ensures
      || (exists k, name :: 0 <= k < i && Raises(log[k], name))
      || (j >= 0 && log[j].ChangeExecuted? && log[j].execution.Ok?
          && log[j].execution.value.succeeded && log[j].execution.value.candidate.None?)
      || (j >= 0 && log[j].GateEvaluated? && log[j].gate.Ok? && log[j].gate.value.disposition == GatePass
          && !d.automaticReleaseAllowed)
      || (j < 0 && log[0].Started?
          && forall p :: p in d.allowedPatterns ==> !Text.Contains(log[0].task.repositoryUri, p))
  {
    OutcomeIsLegal(d, log, i);
    StartedBefore(d, log, i);
    j := LastCall(log, i);
    var h := HistoryOf(log[..i]);
    ErrorMeans(d, h, log[i].outcome);
    if h.raised.Some? {
      SomePortRaised(log[..i]);
      var k :| 0 <= k < i && Raises(log[..i][k], h.raised.value);
      assert Raises(log[k], h.raised.value);
    }
  }

  lemma ErrorMeans(d: TaskDefinition, h: History, o: RunOutcome)
    requires o.disposition == FinallyPipelineError && Consistent(d, h)
    requires exists receipt :: Legal(d, h, OutcomeRecorded(o, receipt))
    ensures
      || h.raised.Some?
      || (h.lastCall.Some? && h.lastCall.value.ChangeExecuted? && h.lastCall.value.execution.Ok?
          && h.lastCall.value.execution.value.succeeded && h.lastCall.value.execution.value.candidate.None?)
      || (h.lastCall.Some? && h.lastCall.value.GateEvaluated? && h.lastCall.value.gate.Ok?
          && h.lastCall.value.gate.value.disposition == GatePass && !d.automaticReleaseAllowed)
      || (h.lastCall.None? && forall p :: p in d.allowedPatterns ==> !Text.Contains(h.task.repositoryUri, p))
  {}
}
