/** The workflow authority: the transition table and the walks it permits. */
module StateMachine {
  import opened Prelude
  import opened RunModel

  function Allowed(s: RunState): set<RunState> {
    match s
    case Created => {Validating, Cancelled}
    case Validating => {Ready, FailedValidation, Cancelled}
    case Ready => {ExecutingChange, Cancelled}
    case ExecutingChange =>
      {CandidateAvailable, ChangeFailed, BudgetExceeded, PipelineError, Cancelled}
    case CandidateAvailable => {Gating, Cancelled}
    case Gating =>
      {ReadyForRelease, GateFailed, MoreEvidence, HumanReviewRequired,
       BudgetExceeded, PipelineError, Cancelled}
    case MoreEvidence =>
      {Gating, HumanReviewRequired, GateFailed, BudgetExceeded, PipelineError, Cancelled}
    case ReadyForRelease => {Released, PipelineError, Cancelled}
    case _ => {}
  }

  predicate Terminal(s: RunState) {
    s in {FailedValidation, ChangeFailed, GateFailed, HumanReviewRequired,
          Released, BudgetExceeded, PipelineError, Cancelled}
  }

  /** One step of the table, stamped with the time it was taken. */
  function Transition(run: OrchestrationRun, to: RunState, at: real, evidence: Option<string>)
    : (r: Result<OrchestrationRun, Failure>)
    ensures r.Ok? <==> to in Allowed(run.state)
    ensures r.Err? ==> r.error == InvalidTransition
    ensures r.Ok? && Walk(run.transitions, run.state) ==> Walk(r.value.transitions, r.value.state)
  {
    if to !in Allowed(run.state) then Err(InvalidTransition)
    else
      Ok(run.(state := to, updatedAt := at,
              transitions := run.transitions + [StateTransition(run.state, to, at, evidence)]))
  }

  /** `ts` leads along permitted edges from CREATED to `state`. */
  predicate Walk(ts: seq<StateTransition>, state: RunState) {
    && (forall i :: 0 <= i < |ts| ==> ts[i].to in Allowed(ts[i].from))
    && (forall i :: 0 < i < |ts| ==> ts[i].from == ts[i - 1].to)
    && (if ts == [] then state == Created else ts[0].from == Created && ts[|ts| - 1].to == state)
  }

  /** The terminal set is exactly the set of states without an outgoing edge,
      so a walk only ever reaches a terminal state by its last edge. */
  lemma TerminalStatesAreNeverLeft(ts: seq<StateTransition>, state: RunState)
    requires Walk(ts, state)
    ensures forall s :: Terminal(s) <==> Allowed(s) == {}
    ensures forall i :: 0 <= i < |ts| ==> !Terminal(ts[i].from)
    ensures forall i :: 0 <= i < |ts| - 1 ==> !Terminal(ts[i].to)
  {
    forall i | 0 <= i < |ts| - 1
      ensures !Terminal(ts[i].to)
    {
      assert ts[i + 1].from == ts[i].to;
    }
  }

  /** The two closing states can be entered from the same non-terminal states,
      READY_FOR_RELEASE apart, and four working states reach neither. */
  lemma StatesThatCannotBeClosed(s: RunState)
    ensures !Terminal(s) && PipelineError !in Allowed(s)
            <==> s in {Created, Validating, Ready, CandidateAvailable}
    ensures !Terminal(s) && BudgetExceeded !in Allowed(s)
            <==> s in {Created, Validating, Ready, CandidateAvailable, ReadyForRelease}
  {}

  /** A walk through a table without self-loops visits RELEASED only after the
      whole working sequence; in particular the state before it passed the gate. */
  lemma {:induction false} ReleaseFollowsGate(ts: seq<StateTransition>, state: RunState)
    requires Walk(ts, state) && state == Released
    ensures |ts| >= 6
    ensures ts[|ts| - 1].from == ReadyForRelease && ts[|ts| - 2].from == Gating
  {
    var n := |ts|;
    assert ts[n - 1].from == ReadyForRelease;
    assert ts[n - 2].to == ReadyForRelease && ts[n - 2].from == Gating;
    WorkingDepth(ts[..n - 2]);
  }

  function Depth(s: RunState): nat {
    match s
    case Created => 0 case Validating => 1 case Ready => 2 case ExecutingChange => 3
    case CandidateAvailable => 4 case Gating => 5 case MoreEvidence => 6
    case _ => 0
  }

  lemma {:induction false} WorkingDepth(ts: seq<StateTransition>)
    requires ts != [] && Walk(ts, ts[|ts| - 1].to)
    ensures |ts| >= Depth(ts[|ts| - 1].to)
    decreases |ts|
  {
    if |ts| > 1 {
      var front := ts[..|ts| - 1];
      assert front[|front| - 1].to == ts[|ts| - 1].from;
      WorkingDepth(front);
    }
  }
}
