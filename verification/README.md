# Verification of the AI engineering pipeline

A Dafny model of the parts of the pipeline whose guarantees span several functions, with
machine-checked proofs. `dafny verify dfyconfig.toml` checks everything.

## What is modelled

* **Orchestration (component 9)** — `RunModel`, `StateMachine`, `Budgets`, `RunHistory`,
  `RunGuarantees`, `Orchestrator`. One run drives an executor, a gate, a release port and an evidence port
  through the transition table. Every port and the clock is an adversary: an arbitrary
  function of the position in the log, so each theorem holds for every behaviour.
  `RunHistory.Legal` is a monitor over the observable events; `Orchestrator.Run` is proved
  to emit legal logs only, and the run-level theorems are proved of every legal log;
  `RunGuarantees` states them on the events alone. What a run returns is stated by
  `Orchestrator.Run` on the answers of the ports alone. A port is assumed never to raise the
  budget error itself.
* **Evidence (component 4)** — `EvidenceKeys`, `EvidenceModel`, `Json`, `Utf8`,
  `EvidenceCodec`, `StoreProtocol`, `EvidenceStore`, `ManifestVerifier`, `EvidenceRecorder`,
  `RecordedRun`.
  `StoreProtocol` splits each store call at the existence check, the read, the hard link and
  the read-back, and interleaves any number of writers, any of which may stop with an I/O
  error. `EvidenceStore` is the store as one process uses it: before each of its steps the
  others do anything the protocol allows, and the step may fail. Digests, serializers and
  parsing are parameters; `EvidenceModel.Lawful` lists what is assumed of them, and
  `EvidenceCodec` proves it of canonical and indented JSON.
* **Qualification (component 5, and the copies in 6, 7 and 8)** — `Wilson`,
  `CampaignMetrics`, `Readiness`, `Campaign`, `Percentile`, over the reals. The square root
  and the normal quantile are parameters; `Wilson.Lawful` lists what is assumed of them. Given
  a square root, `Wilson.LawfulFromSquareRoot` meets the rest.
* **Release gate (components 3 and 1)** — `GateModel`, `GatePolicy`, `GateDecisions`,
  `GateLaws`, `GateControls`, `ControlLaws`, `GateEvaluation`, `EvaluationLaws`, `GatePass`,
  `GateOmission`: running controls, one metric namespace, the policy, and the contract that
  must accept the result. Message texts are values of `Cause` and `Problem`.
* **Cost allocation (component 8)** — `CostAllocation`, `CostAllocator`.
* **Checksum manifest (release scripts)** — `ChecksumManifest`, `ChecksumLaws`.

Each operation is a method proved against a specification function. What that function means is
then stated without it, in terms of the inputs: by `RunGuarantees`, `RecordedRun`, `GateLaws`,
`ControlLaws`, `EvaluationLaws` and `ChecksumLaws`, and elsewhere by lemmas beside it.

`Prelude`, `Text`, `Ordering` and `RealArithmetic` hold the list, string, sorting and
arithmetic facts the rest uses.

## What the proofs show that the code does not say

* An exceeded budget is not always reported as BUDGET_EXCEEDED. If the permitted *time* is up
  at the check that follows READY or CANDIDATE_AVAILABLE, `run()` raises
  `InvalidStateTransitionError` out of its own handler, with no outcome: those states have no
  edge to BUDGET_EXCEEDED. `Orchestrator.Run` gives the exact condition on what the ports
  answer (`LateAtReady` or `LateAtCandidate`), and that the ledger is inside its limits then;
  `Orchestrator.RunsCanBeLate` builds ports for both cases.
* An execution or gate attempt reaches the ledger only if the call returned. The bound on
  gate calls therefore rests on a raising call ending the run as well as on the ledger.
* With `verify_after_write` off, a publisher that loses the link race is told it succeeded
  although another manifest is stored (`StoreProtocol.UnverifiedLoserIsMisled`).
* The release requirements on the safe-release and the false-release bound are one
  requirement: the two bounds mirror each other (`Readiness.ReleaseRequirementsAreOne`).
* Control ids and metric names may contain dots, so `<id>.<metric>` names are not
  collision-free. Two legal ids can collide exactly when they are equal or one continues the
  other with a dot and then a letter or digit (`GateControls.NamesCanCollide`). After such a
  collision the gate's fallback nearly always raises the same error again
  (`GateEvaluation.FallbackRecoversOnlyByName`).
* A control of severity `DOMINANT_FAILURE` that is reached and passes cannot be recorded: the
  contract refuses its result and the gate ends with that error
  (`GateControls.RejectedExactlyWhen`, `GatePass.PassingDominantControlEndsGate`). With such a
  control configured the gate can pass only without running it
  (`GateOmission.DominantControlMustBeHidden`).
* A PASS does not mean that every configured control ran. A control that may stop the sequence
  can hide those behind it if its failure has no consequence (it is INFORMATIONAL, or ADVISORY
  while the policy does not send advisory failures to review) and no control before it is of
  dominant severity. Under a policy without thresholds a PASS can omit a control exactly when
  there is such a control (`GateOmission.HidingPasses` builds the run); under any policy it
  can only then (`GateOmission.PassCanOmitExactlyWhen`).
* A manifest that was just recorded fails verification exactly when some artifact's stored size
  is not the recorded one, which takes two contents of one digest
  (`EvidenceRecorder.RecordRun`).
* The policy flag `more_evidence_on_missing_required_report` is read nowhere.

## Model

| member | source | states |
|---|---|---|
| StateMachine.Transition | A9-orchestrator/src/ai_engineering_orchestrator/state_machine.py:111-146 | A transition succeeds exactly along an edge of the table and extends a walk from CREATED by one edge. |
| StateMachine.TerminalStatesAreNeverLeft | A9-orchestrator/src/ai_engineering_orchestrator/state_machine.py:30-105 | The terminal states are exactly those without an edge; no walk leaves one, and only its last edge enters one. |
| StateMachine.ReleaseFollowsGate | A9-orchestrator/src/ai_engineering_orchestrator/state_machine.py:30-93 | Every walk to RELEASED has at least six edges and ends GATING, READY_FOR_RELEASE, RELEASED. |
| RunHistory.CallBounds | A9-orchestrator/src/ai_engineering_orchestrator/service.py:144-449 | In every legal log: at most one change execution, at most one release, at most min(cycle limit, gate attempts) + 1 gate calls. |
| RunGuarantees.RecordedUsageSumsUp | A9-orchestrator/src/ai_engineering_orchestrator/service.py:578-624 | Every recorded run and outcome reports exactly the sums of the tokens and requests the answering components had reported by then, one attempt for each of them, and the evidence cycles entered. |
| RunGuarantees.OverrunIsOneCall | A9-orchestrator/src/ai_engineering_orchestrator/budgets.py:32-70 | Reported usage exceeds a ceiling by at most what the last component call itself consumed. |
| RunGuarantees.ReleaseIsJustified | A9-orchestrator/src/ai_engineering_orchestrator/service.py:262-336 | The release port is called at most once, with automatic release allowed and the sums of what was used inside all five ceilings, and the component call just before it was a PASS for that same candidate. |
| RunHistory.SnapshotsFormOneWalk | A9-orchestrator/src/ai_engineering_orchestrator/service.py:532-555 | The runs the evidence port accepted are walks from CREATED, each longer than the one before by exactly one edge, however many records failed. |
| RunGuarantees.RecordsFollowAnswers | A9-orchestrator/src/ai_engineering_orchestrator/service.py:174-449 | Every recorded run was announced by the event just before, and its state entered on what warrants it: the matching last answer of executor, gate or release port, or a failed budget check. |
| RunHistory.CallsFollowRecords | A9-orchestrator/src/ai_engineering_orchestrator/service.py:151-336 | Executor, gate and release port are called only when the last run the evidence port accepted is EXECUTING_CHANGE, GATING and READY_FOR_RELEASE respectively. |
| RunGuarantees.OutcomeIsTrue | A9-orchestrator/src/ai_engineering_orchestrator/service.py:626-667 | A recorded outcome names the task and the start of the run, agrees with its final state, and RELEASED, REJECTED and HUMAN_REVIEW_REQUIRED follow from the answer of the very last component call; BUDGET_EXCEEDED is reported exactly after a failed check. |
| RunGuarantees.PipelineErrorHasCause | A9-orchestrator/src/ai_engineering_orchestrator/service.py:488-530 | A run is reported as PIPELINE_ERROR only if a port raised, the executor claimed success without a candidate, the gate passed a candidate while automatic release is off, or the repository matches no permitted pattern. |
| RunGuarantees.GateCallsAreBounded | A9-orchestrator/src/ai_engineering_orchestrator/service.py:219-266 | The gate is called for the candidate the executor returned, with the number of earlier calls as its cycle, within both limits. |
| RunGuarantees.EvidenceIsComplete | A9-orchestrator/src/ai_engineering_orchestrator/service.py:532-667 | The evidence of an outcome is, each once, that of the candidate, of every gate answer, of the release and of every accepted record, and nothing else. |
| RunGuarantees.TransitionsCarryEvidence | A9-orchestrator/src/ai_engineering_orchestrator/service.py:195-449 | A transition that follows from an answer carries the evidence reference of that answer. |
| RunGuarantees.ReasonCodesHaveCauses | A9-orchestrator/src/ai_engineering_orchestrator/service.py:174-530 | An outcome reports all reason codes of the gate, and any other only for what caused it. |
| RunGuarantees.FailedCheckEndsCalls | A9-orchestrator/src/ai_engineering_orchestrator/service.py:455-486 | After a failed budget check no component is called again. |
| Orchestrator.TransitionAndRecord | A9-orchestrator/src/ai_engineering_orchestrator/service.py:532-555 | A recorded transition keeps memory and record in step; if the record fails, the caller's run is unchanged. |
| Orchestrator.CheckBudget | A9-orchestrator/src/ai_engineering_orchestrator/budgets.py:25-79 | The check passes exactly when usage and elapsed time are within all six limits, and changes nothing. |
| Orchestrator.CheckAndEnter | A9-orchestrator/src/ai_engineering_orchestrator/service.py:138-149 | A budget check, then the recorded entry into the state that announces a call: which of the three ways it ends, in terms of clock and evidence port. |
| Orchestrator.Conclude | A9-orchestrator/src/ai_engineering_orchestrator/service.py:626-667 | The outcome agrees with the final state, carries exactly the reason codes due, and is returned only if its record succeeded. |
| Orchestrator.ExecuteChange | A9-orchestrator/src/ai_engineering_orchestrator/service.py:151-172 | One execution, charged to the ledger before the budget is checked again; it yields a result exactly when the port answers inside ledger and time. |
| Orchestrator.Adopt | A9-orchestrator/src/ai_engineering_orchestrator/service.py:195-217 | A candidate joins the run and its evidence the references, and CANDIDATE_AVAILABLE is recorded before the gate may be called. |
| Orchestrator.RejectChange | A9-orchestrator/src/ai_engineering_orchestrator/service.py:174-189 | A failed change ends in REJECTED with its failure code, or in the failed record. |
| Orchestrator.GateOnce | A9-orchestrator/src/ai_engineering_orchestrator/service.py:221-266 | One gate evaluation between two budget checks; what it leaves in ledger, references and reason codes. |
| Orchestrator.HandOver | A9-orchestrator/src/ai_engineering_orchestrator/service.py:382-416 | At the cycle limit the candidate goes to human review with that reason code. |
| Orchestrator.GoRound | A9-orchestrator/src/ai_engineering_orchestrator/service.py:418-441 | Another cycle is put on the ledger and recorded before the gate may be called again. |
| Orchestrator.Respond | A9-orchestrator/src/ai_engineering_orchestrator/service.py:268-441 | Each verdict ends the run in a reported outcome or an exception, or leads to one more cycle inside the limit. |
| Orchestrator.Turn | A9-orchestrator/src/ai_engineering_orchestrator/service.py:219-453 | One turn of the loop: which answer of the gate ends it and how, or which usage the next turn begins with. |
| Orchestrator.GateCandidate | A9-orchestrator/src/ai_engineering_orchestrator/service.py:219-453 | The loop terminates and ends by the first answer that is not a request for more evidence, or at the cycle limit, as the answers of gate, clock and records decide; a gate that always asks for more is called as often as allowed. |
| Orchestrator.ReleaseCandidate | A9-orchestrator/src/ai_engineering_orchestrator/service.py:268-336 | The branch of a PASS. With automatic release on: release is called, once, for this candidate, and the run is RELEASED if it answers and the records succeed. With it off: PIPELINE_ERROR with that reason code, and no release call. |
| Orchestrator.Deliver | A9-orchestrator/src/ai_engineering_orchestrator/service.py:314-336 | The release call and what it ends in, by the answers of release port and records. |
| Orchestrator.CallRelease | A9-orchestrator/src/ai_engineering_orchestrator/service.py:314-322 | One release call after the PASS for the same candidate; its reference joins the references, its exception ends the run. |
| Orchestrator.Withhold | A9-orchestrator/src/ai_engineering_orchestrator/service.py:279-312 | With automatic release off a PASS is closed as PIPELINE_ERROR with that reason code alone added. |
| Orchestrator.CloseRun | A9-orchestrator/src/ai_engineering_orchestrator/service.py:291-302 | A closing transition is kept in memory even when it could not be recorded. |
| Orchestrator.OnBudgetOverrun | A9-orchestrator/src/ai_engineering_orchestrator/service.py:455-486 | The handler raises an invalid transition exactly from READY or CANDIDATE_AVAILABLE, with nothing further observable; otherwise it reports BUDGET_EXCEEDED or raises because a record failed. |
| Orchestrator.OnFailure | A9-orchestrator/src/ai_engineering_orchestrator/service.py:488-530 | The general handler reports PIPELINE_ERROR with the exception's name unless recording that outcome fails. |
| Orchestrator.Run | A9-orchestrator/src/ai_engineering_orchestrator/service.py:96-530 | For every registry, task and port behaviour the run terminates with a legal log. Stated over the answers of the ports alone: a failed change returns REJECTED from CHANGE_FAILED with its code; if the calls are in time and affordable, the first answer of the gate that is not a request for more evidence decides: PASS with automatic release on calls release for that candidate and returns RELEASED, FAIL returns REJECTED from GATE_FAILED, HUMAN_REVIEW and the cycle limit return HUMAN_REVIEW_REQUIRED. An invalid transition is raised exactly when the time is up at the check after READY or CANDIDATE_AVAILABLE; any other exception is a failed record. An always-insistent gate reaches the call bound. |
| Orchestrator.RunsCanBeLate | A9-orchestrator/src/ai_engineering_orchestrator/service.py:455-486 | For every permitted task there are ports that reach each of the two late checks. |
| EvidenceKeys.ResolveAcceptsIssuedKeys | A4-evidence-storage/src/ai_engineering_evidence/store.py:242-283 | A key resolves to a digest exactly when it is, up to slash direction, the key issued for that legal digest. |
| EvidenceKeys.IssuedKeysResolve | A4-evidence-storage/src/ai_engineering_evidence/store.py:242-283 | Every issued key resolves to its own digest. |
| EvidenceKeys.AcceptedKeysAreSpelledOut | A4-evidence-storage/src/ai_engineering_evidence/store.py:242-283 | Such a key is, character by character, objects/sha256/, two hexadecimal digits, a slash and the 64 lowercase digits that begin with those two, with either slash for each slash. |
| StoreProtocol.NothingIsEverReplaced | A4-evidence-storage/src/ai_engineering_evidence/store.py:116-215 | Under every interleaving the store stays sound (objects hash to their names, manifests sit under their own run ids) and no stored object or manifest is replaced. |
| StoreProtocol.ReturnedCallsTellTheTruth | A4-evidence-storage/src/ai_engineering_evidence/store.py:116-215 | What each returned put or publish says about the store, for winners and losers of the link race; a verified publish equals the stored manifest. |
| StoreProtocol.PublishedOnce | A4-evidence-storage/src/ai_engineering_evidence/store.py:178-215 | Two verified publishers of one run both return only if their manifests are equal, publication time included. |
| StoreProtocol.UnverifiedLoserIsMisled | A4-evidence-storage/src/ai_engineering_evidence/store.py:205-215 | Without read-back a losing publisher is told it succeeded although another manifest is stored. |
| StoreProtocol.PutAlone | A4-evidence-storage/src/ai_engineering_evidence/store.py:116-159 | An undisturbed put fails exactly on a wrong expected digest and adds the content only if its digest is new. |
| StoreProtocol.PublishAlone | A4-evidence-storage/src/ai_engineering_evidence/store.py:178-240 | An undisturbed publish succeeds exactly for an acceptable manifest when nothing different is stored for the run, and then is what is stored. |
| StoreProtocol.AmidNobody | A4-evidence-storage/src/ai_engineering_evidence/store.py:116-215 | A call before whose steps nobody moves and nothing fails does what it does alone. |
| StoreProtocol.PutAmid | A4-evidence-storage/src/ai_engineering_evidence/store.py:116-159 | Amid any other writers a put returns exactly when the expected digest agrees and no step fails, and content of that digest is then stored. |
| StoreProtocol.PublishAmid | A4-evidence-storage/src/ai_engineering_evidence/store.py:178-215 | Amid any other writers a returned publish leaves a manifest stored, its own unless it was not read back and another publisher may have come before the link; each error has its cause. |
| EvidenceStore.LocalEvidenceStore.AtomicCreateObject | A4-evidence-storage/src/ai_engineering_evidence/store.py:312-348 | Exclusive creation leaves an existing object as it is and adds a missing one. |
| EvidenceStore.LocalEvidenceStore.PutObject | A4-evidence-storage/src/ai_engineering_evidence/store.py:116-159 | The method takes the protocol's steps amid the other processes, failures included: same store, same reply, same number of steps. |
| EvidenceStore.LocalEvidenceStore.PublishManifest | A4-evidence-storage/src/ai_engineering_evidence/store.py:178-215 | Likewise for publishing. |
| EvidenceStore.LocalEvidenceStore.Proceed | A4-evidence-storage/src/ai_engineering_evidence/store.py:116-215 | What other processes do to the directory before a step is an interleaving of the protocol, and the step may fail. |
| ManifestVerifier.VerifyManifest | A4-evidence-storage/src/ai_engineering_evidence/verifier.py:37-103 | Raises exactly if some artifact's key is malformed; otherwise returns the report of what was looked at and read, though the store may change in between. |
| ManifestVerifier.VerdictIsTrue | A4-evidence-storage/src/ai_engineering_evidence/verifier.py:37-103 | The report is valid exactly when the recorded digest is that of the canonical core and the object of every artifact was present when looked for and readable, and its content has the recorded digest and size; the verified count is the number of such artifacts. |
| ManifestVerifier.NamesAreTrue | A4-evidence-storage/src/ai_engineering_evidence/verifier.py:52-86 | An artifact is named missing exactly if its object was absent, corrupted exactly if its content has another digest or size, and in error exactly if it could not be read. |
| ManifestVerifier.VerifiesExactlyWhen | A4-evidence-storage/src/ai_engineering_evidence/verifier.py:37-103 | A manifest verifies exactly when its digest is right and every artifact can be read and is as recorded. |
| ManifestVerifier.ClassesPartition | A4-evidence-storage/src/ai_engineering_evidence/verifier.py:52-86 | Every artifact is in exactly one of the five classes. |
| EvidenceRecorder.IngestArtifact | A4-evidence-storage/src/ai_engineering_evidence/recorder.py:304-360 | An artifact is stored and listed exactly when it is immutable, readable, matches its digest and size, and no step fails; the error says which. |
| EvidenceRecorder.IngestAll | A4-evidence-storage/src/ai_engineering_evidence/recorder.py:82-184 | Succeeds exactly when every first reference of an id is admissible, no two references of one id have different digests and no step fails; otherwise raises the failure or the error of the first reference at fault. The entries represent every reference once. |
| EvidenceRecorder.IngestNext | A4-evidence-storage/src/ai_engineering_evidence/recorder.py:85-119 | One reference: stored and listed if its id is new, ignored if it repeats the listed digest, ambiguous if it does not. |
| EvidenceRecorder.ManifestOrderIsCanonical | A4-evidence-storage/src/ai_engineering_evidence/recorder.py:186-194 | The sorted artifact list does not depend on the traversal order. |
| EvidenceRecorder.AssembleManifest | A4-evidence-storage/src/ai_engineering_evidence/recorder.py:69-287 | Up to publication: the manifest's fields are drawn from the contracts and all its artifacts are stored, or the run is refused for the first reason found. |
| EvidenceRecorder.RecordRun | A4-evidence-storage/src/ai_engineering_evidence/recorder.py:69-302 | Amid other processes and failing steps: a returned manifest is stored under its run id (surely if read back or nobody came before the link), equals any manifest recorded for the run before, and verifies exactly when the stored sizes agree, which only two contents of one digest prevent; an I/O error is raised exactly when a step fails, any other error for the reason it names. |
| RecordedRun.IdentityIsShared | A4-evidence-storage/src/ai_engineering_evidence/recorder.py:69-302 | Run id and commits of a recorded manifest are the lower-cased values of all three contracts; its own digest is that of its canonical core. |
| RecordedRun.VerdictIsTheGates | A4-evidence-storage/src/ai_engineering_evidence/recorder.py:196-287 | Decision, versions, metrics, reasons, obligations, contradictions and tree are the gate's; the document versions are those in the documents' metadata. |
| RecordedRun.ConsumptionAddsUp | A4-evidence-storage/src/ai_engineering_evidence/recorder.py:196-287 | Each consumption field is the sum over execution and gate, or the gate's own count; the interval is the smallest that contains both components' intervals. |
| RecordedRun.ComponentsAreTheirOwn | A4-evidence-storage/src/ai_engineering_evidence/recorder.py:196-287 | There is exactly one record for each of the three components, in the order of their names, with its own version, times and status. |
| RecordedRun.ArtifactsAreReferences | A4-evidence-storage/src/ai_engineering_evidence/recorder.py:82-184 | Every listed artifact is a reference of one of the contracts, under the phase, producer and version of that contract, with the digest and size of the content read and the object key of that digest. |
| RecordedRun.ReferencesAreListed | A4-evidence-storage/src/ai_engineering_evidence/recorder.py:82-184 | Every reference of the contracts is listed under its id with its digest, and no id twice. |
| RecordedRun.ArtifactsAreInOrder | A4-evidence-storage/src/ai_engineering_evidence/recorder.py:186-194 | The artifacts are listed by phase name and within a phase by id, in code-point order. |
| RecordedRun.RefusalsMean | A4-evidence-storage/src/ai_engineering_evidence/recorder.py:69-184 | A run is refused for a mismatch exactly if run ids or lower-cased commits differ; every other refusal names a reference or a count that is at fault. |
| EvidenceRecorder.RecordedRunStaysVerified | A4-evidence-storage/src/ai_engineering_evidence/verifier.py:33-103 | After any later interleaving of store calls a recorded manifest is unreplaced, and it verifies even if calls are made while it is being verified. |
| Json.RenderEnds | A4-evidence-storage/src/ai_engineering_evidence/canonical.py:40-95 | The JSON text of a value, compact or indented, tells where it ends, whatever may follow; different values have different texts. |
| Utf8.EncodeIsInjective | A4-evidence-storage/src/ai_engineering_evidence/canonical.py:40-95 | Different texts have different UTF-8 bytes. |
| EvidenceCodec.SerializersAreInjective | A4-evidence-storage/src/ai_engineering_evidence/canonical.py:40-95 | Neither canonical nor indented JSON gives two manifests the same bytes. |
| EvidenceCodec.SerializersAreLawful | A4-evidence-storage/src/ai_engineering_evidence/canonical.py:34-95 | With these serializers everything assumed by the evidence theorems holds, whatever the digest function. |
| EvidenceCodec.DigestIdentifiesCore | A4-evidence-storage/src/ai_engineering_evidence/canonical.py:74-77 | Two self-consistent manifests with one recorded digest have the same core, or the digest function collided on different bytes. |
| Wilson.CopiesAgree | A7-process-outcomes/src/ai_engineering_outcomes/statistics.py:28-98 | The interval of components 5, 7 and 8 accepts the same arguments and has the same bounds. |
| Wilson.IntervalIsScoreSet | A5-pipeline-evaluation/src/ai_engineering_evaluation/statistics.py:78-113 | The bounds enclose exactly the proportions x with n(x-p)^2 <= z^2 x(1-x); the clamps never act; the estimate is inside. |
| Wilson.IntervalsNest | A5-pipeline-evaluation/src/ai_engineering_evaluation/statistics.py:78-113 | A larger z never narrows the interval. |
| Wilson.ConfidenceWidens | A5-pipeline-evaluation/src/ai_engineering_evaluation/statistics.py:46-113 | A higher confidence level never narrows the interval the entry point returns. |
| Wilson.BoundsIncrease | A5-pipeline-evaluation/src/ai_engineering_evaluation/statistics.py:78-113 | More successes move both bounds strictly up. |
| Wilson.Complement | A5-pipeline-evaluation/src/ai_engineering_evaluation/statistics.py:78-113 | Counting failures instead of successes mirrors estimate and bounds about one half. |
| Wilson.EntryPointMeans | A5-pipeline-evaluation/src/ai_engineering_evaluation/statistics.py:46-113 | Refused exactly for impossible counts or levels; without trials no interval; otherwise the share of successes with exactly the proportions that the score test at the two-sided quantile of the level does not reject. |
| CampaignMetrics.Partitions | A5-pipeline-evaluation/src/ai_engineering_evaluation/metrics.py:53-135 | Oracle outcomes and gate outcomes each partition the campaign; safe and false releases partition the graded releases. |
| CampaignMetrics.MetricsDescribeCampaign | A5-pipeline-evaluation/src/ai_engineering_evaluation/metrics.py:47-205 | The calculation succeeds exactly for a legal confidence level, and its counters and proportions count what they name. |
| CampaignMetrics.CountersMean | A5-pipeline-evaluation/src/ai_engineering_evaluation/metrics.py:53-135 | Every counter is the number of positions in the campaign at which the named thing happened. |
| CampaignMetrics.RatesMean | A5-pipeline-evaluation/src/ai_engineering_evaluation/metrics.py:97-205 | Each of the four rates is the named count out of the named count, with its score interval; a rate out of nothing has no estimate. |
| CampaignMetrics.FalseReleaseMirrorsSafeRelease | A5-pipeline-evaluation/src/ai_engineering_evaluation/metrics.py:117-154 | The false-release upper bound is one minus the safe-release lower bound, and the other way round. |
| Readiness.Evaluate | A5-pipeline-evaluation/src/ai_engineering_evaluation/readiness.py:32-153 | The decision is the one the table of violated requirements gives, reasons in order. |
| Readiness.StatusMeans | A5-pipeline-evaluation/src/ai_engineering_evaluation/readiness.py:32-153 | INSUFFICIENT_EVIDENCE with too few graded cases or an unknown bound, QUALIFIED with enough and every requirement met, NOT_QUALIFIED otherwise. |
| Readiness.ReasonsMean | A5-pipeline-evaluation/src/ai_engineering_evaluation/readiness.py:53-153 | A reason is given exactly if it applies to the counters and bounds. |
| Readiness.ImprovementKeepsQualification | A5-pipeline-evaluation/src/ai_engineering_evaluation/readiness.py:53-153 | Turning any incorrect candidates of any campaign into correct ones never loses a qualification. |
| Readiness.ImprovementAddsNoReason | A5-pipeline-evaluation/src/ai_engineering_evaluation/readiness.py:84-146 | If the improved campaign is still refused, so was the original, and every reason given was already given there. |
| Readiness.ReleaseRequirementsAreOne | A5-pipeline-evaluation/src/ai_engineering_evaluation/readiness.py:91-108 | The two release requirements together bound the safe-release lower bound by one number. |
| Campaign.Run | A5-pipeline-evaluation/src/ai_engineering_evaluation/campaign.py:127-264 | An unvalidated benchmark is refused untouched; otherwise log and results are the specified transcript, measured and judged. |
| Campaign.ResultsMean | A5-pipeline-evaluation/src/ai_engineering_evaluation/campaign.py:145-234 | Result i: with a workspace the outcome is the verdict of grading that workspace with that oracle exactly when the oracle loads and grading succeeds, UNGRADABLE otherwise and without a workspace; gate outcome, run id, digest and category are the pipeline's own, with the two default categories. |
| Campaign.LogGrows | A5-pipeline-evaluation/src/ai_engineering_evaluation/campaign.py:145-207 | Each case adds its pipeline call, and the reading of its oracle exactly if a workspace was left. |
| Campaign.OneResultPerCase | A5-pipeline-evaluation/src/ai_engineering_evaluation/campaign.py:145-234 | One result per case, in order, with the pipeline's own gate outcome or PIPELINE_ERROR. |
| Campaign.OneCallPerCase | A5-pipeline-evaluation/src/ai_engineering_evaluation/campaign.py:145-154 | One pipeline call per case, in order, carrying nothing but the visible part of the case. |
| Campaign.OracleReadAfterExecution | A5-pipeline-evaluation/src/ai_engineering_evaluation/campaign.py:148-207 | Every oracle is read straight after the pipeline call of its own case. |
| Campaign.OraclesDoNotInterfere | A5-pipeline-evaluation/src/ai_engineering_evaluation/campaign.py:145-234 | Benchmarks that differ only in oracles give the same pipeline calls and gate outcomes, whatever loading and grading the oracles does. |
| Percentile.ReachesEnds | A6-production-observability/src/ai_engineering_observability/aggregation.py:26-67 | Quantile 0 is the minimum and quantile 1 the maximum of the values. |
| Percentile.RisesWithQuantile | A6-production-observability/src/ai_engineering_observability/aggregation.py:26-67 | The percentile never falls as the quantile grows, across index boundaries too. |
| Percentile.StaysInRange | A7-process-outcomes/src/ai_engineering_outcomes/aggregation.py:33-67 | The percentile stays within any bounds on the values. |
| Percentile.IgnoresOrder | A8-engineering-economics/src/ai_engineering_economics/statistics.py:73-101 | The percentile is invariant under permutation. |
| Percentile.HasItsRank | A8-engineering-economics/src/ai_engineering_economics/statistics.py:73-101 | With k the whole part of q(n-1), at least k+1 of the values are not above the q-percentile and at least n-k (n-k-1 between two values) not below it. |
| Percentile.StraightBetweenNeighbours | A6-production-observability/src/ai_engineering_observability/aggregation.py:50-67 | Between neighbouring values the percentile moves along a straight line. |
| Percentile.AnswerIsReadAt | A8-engineering-economics/src/ai_engineering_economics/statistics.py:73-101 | In any ascending arrangement of the values the q-percentile is what stands at position q(n-1), or lies on the line between that position's neighbours. |
| Percentile.TailsAreOrdered | A8-engineering-economics/src/ai_engineering_economics/statistics.py:104-118 | A duration summary is refused exactly for a negative value; its percentiles are those at 0.50, 0.85 and 0.95, all absent or ordered and nonnegative. |
| Percentile.LatencyTailsAreOrdered | A6-production-observability/src/ai_engineering_observability/aggregation.py:180-182 | p50 <= p95 <= p99 for every nonempty list. |
| GatePolicy.Decide | A3-release-gate-service/src/ai_engineering_release_gate/policy.py:56-208 | Fails exactly when a threshold reads a non-finite metric, naming the first such metric; otherwise returns the specified decision, reasons, obligations and contradictions. |
| GatePolicy.ConsiderControl | A3-release-gate-service/src/ai_engineering_release_gate/policy.py:66-142 | One control appends exactly its one specified finding, the obligation it makes and its contradictions. |
| GatePolicy.ConsiderThreshold | A3-release-gate-service/src/ai_engineering_release_gate/policy.py:143-180 | One threshold appends exactly its specified finding and obligation, or reports a non-finite metric. |
| GatePolicy.MaximumDecision | A3-release-gate-service/src/ai_engineering_release_gate/policy.py:191-194 | The maximum by precedence. |
| GateLaws.ComparesAsStated | A3-release-gate-service/src/ai_engineering_release_gate/policy.py:210-236 | Each operator means its comparison of reals; equality is up to 1e-12, absolutely or relative to the larger magnitude. |
| GateLaws.ThresholdRaises | A3-release-gate-service/src/ai_engineering_release_gate/policy.py:143-180 | A threshold raises a finding exactly if its metric is missing, with the decision its own missing action names, or violates it, with its failure decision. |
| GateLaws.DecisionIsStrictest | A3-release-gate-service/src/ai_engineering_release_gate/policy.py:56-208 | FAIL, else HUMAN_REVIEW_REQUIRED, else MORE_EVIDENCE_REQUIRED, else PASS: the strictest decision that a control's status and severity, a missing metric or a violated comparison asks for under the policy's flags. |
| GateLaws.ReasonsMean | A3-release-gate-service/src/ai_engineering_release_gate/policy.py:191-200 | A reason is given exactly if a control or threshold that asks for the decision gives it. |
| GateLaws.ObligationsMean | A3-release-gate-service/src/ai_engineering_release_gate/policy.py:117-180 | The unmet obligations are exactly the undecided controls that matter, the missing metrics, and the violated thresholds that ask for more evidence. |
| GateLaws.ContradictionsMean | A3-release-gate-service/src/ai_engineering_release_gate/policy.py:66-142 | A contradiction is reported exactly if an errored control that the policy does not fail gives a reason that speaks of one. |
| GateDecisions.DecisionIsHighestFinding | A3-release-gate-service/src/ai_engineering_release_gate/policy.py:56-208 | No control or threshold asks for more than the decision, one asks for exactly it, and PASS means there is no finding. |
| GateDecisions.ReasonsAreExact | A3-release-gate-service/src/ai_engineering_release_gate/policy.py:191-200 | The reasons are exactly the findings of the winning precedence. |
| GateDecisions.ObligationsAreExact | A3-release-gate-service/src/ai_engineering_release_gate/policy.py:143-208 | The unmet obligations are exactly the obliging findings' causes, each once. |
| GateDecisions.ContradictionsAreExact | A3-release-gate-service/src/ai_engineering_release_gate/policy.py:137-142 | The contradictions are exactly the contradicting reasons of errored controls the policy has not already failed, each once. |
| GateDecisions.MoreEvidenceNeverLowers | A3-release-gate-service/src/ai_engineering_release_gate/policy.py:56-208 | Adding controls or thresholds anywhere never lowers the decision. |
| GateDecisions.OrderDoesNotMatter | A3-release-gate-service/src/ai_engineering_release_gate/policy.py:56-208 | Permuting controls or thresholds leaves the decision, the multiset of reasons and the sets of obligations and contradictions unchanged. |
| GateDecisions.MoreEvidenceNamesObligation | A1-shared-contracts/src/ai_engineering_contracts/models.py:944-953 | A MORE_EVIDENCE_REQUIRED decision always lists an unmet obligation. |
| GateDecisions.AcceptedExactlyWhen | A1-shared-contracts/src/ai_engineering_contracts/models.py:917-953 | The result contract accepts a decision exactly when a dominant failure led to FAIL and a mandatory one not to PASS. |
| GateDecisions.FlagsGuaranteeAcceptance | A1-shared-contracts/src/ai_engineering_contracts/models.py:917-953 | With both failure flags on every decision is accepted, and a dominant or mandatory failure means FAIL. |
| GateDecisions.AcceptanceNeedsFlags | A1-shared-contracts/src/ai_engineering_contracts/models.py:917-953 | With a flag off, one failed control of that severity yields a decision the contract refuses. |
| GateControls.RunControl | A3-release-gate-service/src/ai_engineering_release_gate/evidence.py:228-435 | Running a control yields the specified result or error for every observation of its environment. |
| ControlLaws.StatusMeans | A3-release-gate-service/src/ai_engineering_release_gate/evidence.py:228-435 | PASSED with an expected exit code, fine reports and an untouched tree, FAILED with an unexpected one and otherwise the same, ERROR in every other case. |
| ControlLaws.MetricsMean | A3-release-gate-service/src/ai_engineering_release_gate/evidence.py:228-435 | The metrics are exit code, duration and truncation of the command, those of every parsed report, and the mark of a modified tree. |
| ControlLaws.MetricsWithoutRun | A3-release-gate-service/src/ai_engineering_release_gate/evidence.py:228-435 | A control that did not run has no metrics, but the mark of a timeout. |
| ControlLaws.ErrorsMean | A3-release-gate-service/src/ai_engineering_release_gate/evidence.py:228-435 | When budget, storage or an unverifiable tree end the gate instead of a result. |
| ControlLaws.ReasonsMean | A3-release-gate-service/src/ai_engineering_release_gate/evidence.py:228-435 | The reasons name exactly what went wrong: why the command did not run, the unexpected exit code, each report at fault, the modified tree. |
| GateControls.PassedExactlyWhen | A3-release-gate-service/src/ai_engineering_release_gate/evidence.py:228-435 | A control passes exactly when it ran with an expected exit code, every report is acceptable, no metric is reported twice and the tracked files are untouched. |
| GateControls.RejectedExactlyWhen | A3-release-gate-service/src/ai_engineering_release_gate/evidence.py:228-435 | The contract refuses a control's result exactly when it completes and either is dominant and passes, or has a metric that is not finite or has a blank name. |
| GateControls.NamespaceMetrics | A3-release-gate-service/src/ai_engineering_release_gate/evidence.py:438-466 | Flattening succeeds exactly when all qualified names are distinct and all values finite, and then holds exactly those metrics. |
| GateControls.NamesCanCollide | A3-release-gate-service/src/ai_engineering_release_gate/evidence.py:438-466 | Two legal control ids have legal metric names that give one qualified name exactly when they are equal or one continues the other after a dot with a letter or digit. |
| GateEvaluation.Evaluate | A3-release-gate-service/src/ai_engineering_release_gate/service.py:181-301 | Builtin controls, the sequence with its early stop, normalization with its fallback, the policy and the result contract compose as specified. |
| GateEvaluation.EvaluatedIsUnique | A3-release-gate-service/src/ai_engineering_release_gate/service.py:181-301 | The specification of evaluate admits one result: the metric namespace is determined by its listing. |
| GateEvaluation.SequenceIsPrefix | A3-release-gate-service/src/ai_engineering_release_gate/service.py:257-276 | The controls run are a prefix of those configured, each as observed; a proper prefix ends in a failing control set to stop. |
| GateEvaluation.FallbackRecoversOnlyByName | A3-release-gate-service/src/ai_engineering_release_gate/service.py:277-296 | After a normalization failure the gate continues exactly when the controls not named evidence-normalization normalize; without such a control it never does. |
| EvaluationLaws.NormalizableMeans | A3-release-gate-service/src/ai_engineering_release_gate/evidence.py:438-466 | The metrics share one namespace exactly when no two of them have the same id, dot and name, and all are finite. |
| EvaluationLaws.ResultInScope | A3-release-gate-service/src/ai_engineering_release_gate/service.py:181-301 | The result for a candidate in scope lists the two passed builtin controls with their metrics, the configured controls as observed until one that failed or errored stops them, the metrics of all of these under their qualified names, and the policy's decision on exactly that. |
| EvaluationLaws.RefusedCandidateFails | A3-release-gate-service/src/ai_engineering_release_gate/service.py:181-301 | A candidate not rebuilt, not checked or out of scope gets a result with the builtin controls alone, their metrics, and FAIL; only a policy that does not fail dominant controls can make it an error. |
| GatePass.PassesExactlyWhen | A3-release-gate-service/src/ai_engineering_release_gate/service.py:181-301 | Under any policy the gate passes exactly when the candidate is in scope, no control raises, the metrics share one namespace, every control that ran is passed or ignored and every threshold is met by a listed metric. |
| GatePass.GateFailsByControl | A3-release-gate-service/src/ai_engineering_release_gate/service.py:257-276 | evaluate raises budget, storage, tree or contract errors exactly when a control that the sequence reaches raises them. |
| GatePass.PassingDominantControlEndsGate | A1-shared-contracts/src/ai_engineering_contracts/models.py:816-829 | A dominant control that is reached and passes ends the gate with the contract's refusal. |
| GatePass.PassMeansControlsPassed | A3-release-gate-service/src/ai_engineering_release_gate/service.py:245-301 | Under any policy a PASS means reconstruction and scope succeeded, each control that ran passed or has a severity the policy ignores, none is dominant, and all configured controls ran unless an ignored one failed and stopped the sequence. |
| GateOmission.HidingPasses | A3-release-gate-service/src/ai_engineering_release_gate/service.py:257-276 | For every control that can hide those behind it, a run in which it fails, the rest never runs and the gate passes (policy without thresholds). |
| GateOmission.PassCanOmitExactlyWhen | A3-release-gate-service/src/ai_engineering_release_gate/service.py:257-301 | A PASS can leave out a configured control only if some ignored, stopping control with no dominant one before it has others behind it; without thresholds, exactly then. |
| GateOmission.DominantControlMustBeHidden | A3-release-gate-service/src/ai_engineering_release_gate/service.py:257-301 | With a dominant control configured the gate can pass only by leaving a control out; without thresholds, exactly if some control can hide others. |
| CostAllocation.CostIsConserved | A8-engineering-economics/src/ai_engineering_economics/allocation.py:78-176 | The shares of one cost sum to it, whichever rule divides it. |
| CostAllocation.EachCostIsConserved | A8-engineering-economics/src/ai_engineering_economics/allocation.py:78-187 | In a whole allocation the shares bearing a cost's id sum to that cost. |
| CostAllocation.SharesAreSound | A8-engineering-economics/src/ai_engineering_economics/allocation.py:78-176 | Every share names its cost, is nonnegative and goes to an eligible item. |
| CostAllocation.TokenSharesAreProportional | A8-engineering-economics/src/ai_engineering_economics/allocation.py:120-155 | A token-share cost pays exactly the eligible items with tokens, in proportion to the tokens of all usage of eligible items. |
| CostAllocation.DirectCostIsPaidByItsItem | A8-engineering-economics/src/ai_engineering_economics/allocation.py:79-95 | A cost that names a work item is paid by that item, whole and alone. |
| CostAllocation.RunCostIsPaidEqually | A8-engineering-economics/src/ai_engineering_economics/allocation.py:97-120 | A cost that names a run is paid in equal parts by exactly the eligible items of that run, each once. |
| CostAllocation.EqualCostIsPaidEqually | A8-engineering-economics/src/ai_engineering_economics/allocation.py:157-170 | An equal-share cost is paid in equal parts by all eligible items, each once. |
| CostAllocation.TokensThen | A8-engineering-economics/src/ai_engineering_economics/allocation.py:59-74 | The tokens of an item are the input and output tokens of all its usage. |
| CostAllocation.ErrorsMean | A8-engineering-economics/src/ai_engineering_economics/allocation.py:78-176 | Why a cost cannot be divided: an ineligible item, a run without eligible items, no tokens, or no key. |
| CostAllocation.SharesExistExactlyWhen | A8-engineering-economics/src/ai_engineering_economics/allocation.py:78-176 | The exact condition under which one cost can be divided. |
| CostAllocator.IndexUsage | A8-engineering-economics/src/ai_engineering_economics/allocation.py:59-74 | The two dictionaries hold the token sums and the run's items of the eligible usage. |
| CostAllocator.DivideCost | A8-engineering-economics/src/ai_engineering_economics/allocation.py:78-176 | One turn of the cost loop appends exactly the specified shares or raises the specified error. |
| CostAllocator.Allocate | A8-engineering-economics/src/ai_engineering_economics/allocation.py:43-187 | The allocator returns the specified shares or the first error; its closing comparison of totals never fails. |
| CostAllocator.AllocationConservesMoney | A8-engineering-economics/src/ai_engineering_economics/allocation.py:78-187 | Allocation succeeds exactly when every cost has a key, and conserves the total and each cost. |
| CostAllocator.EveryShareIsSound | A8-engineering-economics/src/ai_engineering_economics/allocation.py:78-187 | No share of a whole allocation is negative or goes to an ineligible item. |
| ChecksumManifest.Parse | release-gate/scripts/verify_release_assets.py:51-74 | The parser accepts exactly the texts that are small, ASCII, newline-terminated and all of whose lines match, distinct, sorted and not recursive; each early error has its exact condition. |
| ChecksumLaws.AcceptedMeans | release-gate/scripts/verify_release_assets.py:51-74 | Accepted are exactly the texts of at most 1 MiB that spell one or more lines of 64 lowercase hexadecimal digits, two spaces and a legal name other than SHA256SUMS, each with a line break, names strictly ascending by code point. |
| ChecksumLaws.MappingMeans | release-gate/scripts/verify_release_assets.py:51-74 | The mapping read holds the name and digest of every line, and no others. |
| ChecksumManifest.RoundTrip | release-gate/scripts/build_release_assets.py:92-96 | Every nonempty mapping of legal names and digests whose text fits is read back exactly. |
| ChecksumManifest.ReprintedExactlyWhen | release-gate/scripts/verify_release_assets.py:51-74 | An accepted text is reprinted unchanged exactly when a newline is its only kind of line break. |
| ChecksumManifest.AcceptedTextsArePrinted | release-gate/scripts/build_release_assets.py:92-96 | Of the texts with no other line break, the accepted ones are exactly the printed ones. |

## Left out

- Floating-point rounding: statistics, percentiles, metrics and cost shares are over the reals; infinities and NaN appear only where the code looks for them. In exact arithmetic the allocator's tolerance is never needed.
- Message texts, trace records, versions, task titles and other descriptive fields; exception texts are represented by the exception's name or by a case of a datatype. What `str.casefold` makes of a reason is an input.
- Git, subprocesses, XML and JSON report parsing, file locking, temporary files and the removal of the temporary link: their results are inputs.
- The symbolic-link escape check of object keys and report paths, beyond the cases "inside" and "escaping".
- Every failure of the file system counts as `IoError`, in whatever exception the store wraps it.
- EvidenceCodec.SerializersAreLawful: times, costs and metrics are integers, counted in a smallest unit, so the texts of floating-point numbers and timestamps are not modelled; parsing is whatever undoes the indented text.
- `execution_artifacts`, which the recorder reads although the shared contract does not declare it, is an extra list field.
- GateOmission.PassCanOmitExactlyWhen: with thresholds the condition is only shown necessary, because whether thresholds can be met depends on what the parsers report; report contents are inputs.
- GateDecisions.AcceptedExactlyWhen: is about the contract's decision rules; its rules on timestamps, commits, artifact kinds, test and mutant counts are left out.
- GateEvaluation.Evaluate: begins after the documents are loaded and found consistent, and ends before the evidence package and the trace are stored, either of which may raise.
- Campaign.Run: timings, token and cost totals and grading notes.
- The remaining counters of components 6 and 7 (per-instance grouping), sandbox policy, registries, status mapping and archive checks: single-branch code that would add only easy members.
