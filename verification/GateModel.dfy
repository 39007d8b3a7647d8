/** The records the release gate exchanges, and the contract a gate result must meet. */
module GateModel {

  datatype Decision = Pass | MoreEvidenceRequired | HumanReviewRequired | Fail

  datatype Status = Passed | Failed | Warning | Skipped | Error | NotApplicable

  datatype Severity = Informational | Advisory | Mandatory | DominantFailure

  /** A floating-point measurement: a number, an infinity or not a number. */
  datatype Number = Finite(value: real) | NotFinite

  datatype Metric = Metric(name: string, value: Number)

  /** A message with its case folded as `str.casefold` folds it. */
  datatype Remark = Remark(text: string, folded: string)

  datatype Control = Control(
    id: string, status: Status, severity: Severity, metrics: seq<Metric>, reasons: seq<Remark>)

  predicate Failing(status: Status) { status.Failed? || status.Error? }

  predicate Blank(s: string) { forall c :: c in s ==> c == ' ' || c == '\t' || c == '\n' || c == '\r' }

  /** `ControlResult.validate_control` and its metric validator. */
  predicate ValidControl(c: Control) {
    && (c.severity.DominantFailure? ==> Failing(c.status))
    && forall m :: m in c.metrics ==> m.value.Finite? && !Blank(m.name)
  }

  predicate DominantFailurePresent(controls: seq<Control>) {
    exists c :: c in controls && c.severity.DominantFailure? && Failing(c.status)
  }

  predicate MandatoryFailurePresent(controls: seq<Control>) {
    exists c :: c in controls && c.severity.Mandatory? && Failing(c.status)
  }

  /** The decision rules of `GateResult.validate_gate_outcome`. */
  predicate ContractAccepts<O, C>(controls: seq<Control>, decision: Decision, unmet: seq<O>, contradictions: seq<C>) {
    && (DominantFailurePresent(controls) ==> decision.Fail?)
    && (decision.Pass? ==>
          && !DominantFailurePresent(controls) && !MandatoryFailurePresent(controls)
          && |unmet| == 0 && |contradictions| == 0)
    && (decision.MoreEvidenceRequired? ==>
          && !DominantFailurePresent(controls)
          && (|unmet| > 0 || |contradictions| > 0))
  }
}
