/** What a recorded manifest says about the run, field by field and artifact by artifact. */
module RecordedRun {
  import opened Prelude
  import opened Text
  import opened Ordering
  import opened EvidenceKeys
  import opened EvidenceModel
  import opened EvidenceRecorder

  // ----- Fields ---------------------------------------------------------------------

  /** Identity and commits are those of all three contracts. */
  lemma IdentityIsShared(
    c: Codec, request: GateRequest, execution: ExecutionContract, gate: GateContract, now: int, m: RunManifest)
    requires SameRun(request, execution, gate) && Describes(c, request, execution, gate, now, m)
    ensures m.core.runId == request.runId == execution.runId == gate.runId
    ensures m.core.baseCommit == Lower(request.baseCommit) == Lower(execution.baseCommit) == Lower(gate.baseCommit)
    ensures execution.candidateCommit.Some?
    ensures m.core.candidateCommit == Lower(request.candidateCommit)
         == Lower(execution.candidateCommit.value) == Lower(gate.candidateCommit)
    ensures m.core.taskType == request.taskType && m.core.taskPackageVersion == request.taskPackageVersion
    ensures m.core.repositoryUrl == request.repositoryUrl
    ensures m.publishedAt == now && m.manifestSha256 == c.sha256(c.canonicalCore(m.core))
  {}

  /** Verdict, versions, metrics and explanations are the gate's; the versions of the two task
      documents are those in their metadata. */
  lemma VerdictIsTheGates(
    c: Codec, request: GateRequest, execution: ExecutionContract, gate: GateContract, now: int, m: RunManifest)
    requires Describes(c, request, execution, gate, now, m)
    ensures m.core.gateDecision == gate.decision && m.core.metrics == gate.metrics
    ensures m.core.gateVersion == gate.gateVersion && m.core.policyVersion == gate.policyVersion
    ensures m.core.decisionReasons == gate.decisionReasons && m.core.unmetObligations == gate.unmetObligations
    ensures m.core.contradictions == gate.contradictions
    ensures m.core.candidateTree.None? <==> gate.candidateTree.None? || gate.candidateTree == Some("")
    ensures m.core.candidateTree.Some? ==> m.core.candidateTree == Some(Lower(gate.candidateTree.value))
    ensures
      var documented := request.requirementContract.metadata;
      if "version" in documented then m.core.requirementVersion == Some(documented["version"])
      else m.core.requirementVersion == None
    ensures
      var documented := request.evaluationSpecification.metadata;
      if "version" in documented then m.core.evaluationVersion == Some(documented["version"])
      else m.core.evaluationVersion == None
  {}

  /** Consumption adds up both components; the counts of the gate are its own; the interval is
      the smallest that contains both components' intervals. */
  lemma ConsumptionAddsUp(
    c: Codec, request: GateRequest, execution: ExecutionContract, gate: GateContract, now: int, m: RunManifest)
    requires Describes(c, request, execution, gate, now, m)
    ensures
      var used := m.core.consumed;
      && used.llmCalls == execution.usage.llmCalls + gate.usage.llmCalls
      && used.inputTokens == execution.usage.inputTokens + gate.usage.inputTokens
      && used.outputTokens == execution.usage.outputTokens + gate.usage.outputTokens
      && used.estimatedCost == execution.usage.estimatedCost + gate.usage.estimatedCost
      && gate.toolCalls == Some(used.toolCalls) && used.generatedTests == gate.generatedTests
      && used.qualifiedGeneratedTests == gate.qualifiedGeneratedTests
      && used.mutantsGenerated == gate.mutantsGenerated
      && used.meaningfulMutantsSurvived == gate.meaningfulMutantsSurvived
    ensures m.core.startedAt <= execution.startedAt && m.core.startedAt <= gate.startedAt
    ensures m.core.startedAt == execution.startedAt || m.core.startedAt == gate.startedAt
    ensures execution.completedAt <= m.core.completedAt && gate.completedAt <= m.core.completedAt
    ensures m.core.completedAt == execution.completedAt || m.core.completedAt == gate.completedAt
  {}

  /** There is one record for each of the three components, in the order of their names, and it is its own. */
  lemma ComponentsAreTheirOwn(
    c: Codec, request: GateRequest, execution: ExecutionContract, gate: GateContract, now: int, m: RunManifest,
    x: Component)
    requires Describes(c, request, execution, gate, now, m)
    ensures
      var parts := m.core.components;
      && |parts| == 3 && parts[0].name == "ChangeExecutionService"
      && parts[1].name == "EvidenceRecorder" && parts[2].name == "ReleaseGateService"
    ensures x in m.core.components && x.name == "ChangeExecutionService" <==>
      x == Component("ChangeExecutionService", execution.executorVersion,
                     Some(execution.startedAt), Some(execution.completedAt), execution.status)
    ensures x in m.core.components && x.name == "ReleaseGateService" <==>
      x == Component("ReleaseGateService", gate.gateVersion, Some(gate.startedAt), Some(gate.completedAt), gate.decision)
    ensures x in m.core.components && x.name == "EvidenceRecorder" <==>
      x == Component("EvidenceRecorder", "0.1.0", None, None, "recorded")
  {
    assert "ChangeExecutionService"[0] == 'C' && "EvidenceRecorder"[0] == 'E' && "ReleaseGateService"[0] == 'R';
  }

  // ----- Artifacts ---------------------------------------------------------------------

  /** The entry lists this reference: what the contract says of it, and the digest and size of
      the content that was read. */
  predicate ListedAs(c: Codec, e: Entry, r: ArtifactReference) {
    && e.artifactId == r.artifactId && e.kind == r.kind && e.mediaType == r.mediaType
    && e.sourceUri == r.uri && e.metadata == r.metadata
    && r.immutable && r.content.Some? && r.sha256.Some?
    && (r.sizeBytes.Some? ==> r.sizeBytes.value == |r.content.value|)
    && e.sha256 == c.sha256(r.content.value) == Lower(r.sha256.value) && e.sizeBytes == |r.content.value|
    && e.objectKey == ObjectKey(e.sha256)
  }

  predicate FromTask(c: Codec, request: GateRequest, e: Entry) {
    && e.phase == TaskInput && e.producer == "task-package" && e.producerVersion == request.taskPackageVersion
    && (ListedAs(c, e, request.requirementContract) || ListedAs(c, e, request.evaluationSpecification)
        || ListedAs(c, e, request.releasePolicy))
  }

  predicate FromExecution(c: Codec, execution: ExecutionContract, e: Entry) {
    && e.phase == ChangeExecution && e.producer == "ChangeExecutionService"
    && e.producerVersion == execution.executorVersion
    && ((execution.patchArtifact.Some? && ListedAs(c, e, execution.patchArtifact.value))
        || exists r :: r in execution.executionArtifacts && ListedAs(c, e, r))
  }

  predicate FromGate(c: Codec, gate: GateContract, e: Entry) {
    && e.phase == ReleaseGate && e.producer == "ReleaseGateService" && e.producerVersion == gate.gateVersion
    && (ListedAs(c, e, gate.evidencePackage)
        || exists k, r :: 0 <= k < |gate.controlArtifacts| && r in gate.controlArtifacts[k] && ListedAs(c, e, r))
  }

  lemma {:induction false} Flattened(lists: seq<seq<ArtifactReference>>, r: ArtifactReference)
    ensures r in Flatten(lists) <==> exists k :: 0 <= k < |lists| && r in lists[k]
  {
    if lists != [] {
      Flattened(lists[1..], r);
      if k :| 0 <= k < |lists| && r in lists[k] {
        assert k > 0 ==> r in lists[1..][k - 1];
      }
      if k :| 0 <= k < |lists[1..]| && r in lists[1..][k] {
        assert r in lists[k + 1];
      }
    }
  }

  /** Where the sources come from. */
  lemma SourcesAre(request: GateRequest, execution: ExecutionContract, gate: GateContract, s: Source)
    ensures s in Sources(request, execution, gate) && s.phase == TaskInput <==>
      && s.phase == TaskInput && s.producer == "task-package" && s.producerVersion == request.taskPackageVersion
      && (s.reference == Some(request.requirementContract) || s.reference == Some(request.evaluationSpecification)
          || s.reference == Some(request.releasePolicy))
    ensures s in Sources(request, execution, gate) && s.phase == ChangeExecution <==>
      && s.phase == ChangeExecution && s.producer == "ChangeExecutionService"
      && s.producerVersion == execution.executorVersion
      && (s.reference == execution.patchArtifact
          || (s.reference.Some? && s.reference.value in execution.executionArtifacts))
    ensures s in Sources(request, execution, gate) && s.phase == ReleaseGate <==>
      && s.phase == ReleaseGate && s.producer == "ReleaseGateService" && s.producerVersion == gate.gateVersion
      && s.reference.Some?
      && (s.reference.value == gate.evidencePackage || s.reference.value in Flatten(gate.controlArtifacts))
  {
    EachAre(execution.executionArtifacts, ChangeExecution, "ChangeExecutionService", execution.executorVersion, s);
    EachAre(Flatten(gate.controlArtifacts), ReleaseGate, "ReleaseGateService", gate.gateVersion, s);
  }

  lemma EachAre(references: seq<ArtifactReference>, phase: Phase, producer: string, version: string, s: Source)
    ensures s in Each(references, phase, producer, version) <==>
      && s.phase == phase && s.producer == producer && s.producerVersion == version
      && s.reference.Some? && s.reference.value in references
  {
    var each := Each(references, phase, producer, version);
    if s.reference.Some? && s.reference.value in references {
      var i :| 0 <= i < |references| && references[i] == s.reference.value;
      assert each[i] == Source(Some(references[i]), phase, producer, version);
    }
  }

  /** Every listed artifact is one of the contracts' references, listed with the phase and the
      producer of the contract it comes from, its content read and checked. */
  lemma ArtifactsAreReferences(
    c: Codec, request: GateRequest, execution: ExecutionContract, gate: GateContract, now: int, m: RunManifest, e: Entry)
    requires Describes(c, request, execution, gate, now, m) && e in m.core.artifacts
    ensures FromTask(c, request, e) || FromExecution(c, execution, e) || FromGate(c, gate, e)
  {
    var sources := Sources(request, execution, gate);
    var entries :| Represents(c, sources, entries) && m.core.artifacts == SortBy(entries, EntryLeq);
    SortKeepsEntries(entries);
    var j: nat :| j < |sources| && IngestedFrom(c, sources, j, e);
    SourcesAre(request, execution, gate, sources[j]);
    assert ListedAs(c, e, sources[j].reference.value);
    if sources[j].phase == ReleaseGate && sources[j].reference.value != gate.evidencePackage {
      Flattened(gate.controlArtifacts, sources[j].reference.value);
    }
  }

  /** A reference of one of the three contracts. */
  predicate Referenced(request: GateRequest, execution: ExecutionContract, gate: GateContract, r: ArtifactReference) {
    || r == request.requirementContract || r == request.evaluationSpecification || r == request.releasePolicy
    || execution.patchArtifact == Some(r) || r in execution.executionArtifacts
    || r == gate.evidencePackage || exists k :: 0 <= k < |gate.controlArtifacts| && r in gate.controlArtifacts[k]
  }

  /** Every reference of the contracts is listed, under its id and with its digest, and no id
      is listed twice. */
  lemma ReferencesAreListed(
    c: Codec, request: GateRequest, execution: ExecutionContract, gate: GateContract, now: int, m: RunManifest,
    r: ArtifactReference)
    requires Describes(c, request, execution, gate, now, m) && Referenced(request, execution, gate, r)
    ensures r.sha256.Some?
    ensures exists e :: e in m.core.artifacts && e.artifactId == r.artifactId && e.sha256 == Lower(r.sha256.value)
    ensures forall i, j :: 0 <= i < j < |m.core.artifacts| ==>
      m.core.artifacts[i].artifactId != m.core.artifacts[j].artifactId
  {
    var sources := Sources(request, execution, gate);
    var entries :| Represents(c, sources, entries) && m.core.artifacts == SortBy(entries, EntryLeq);
    SortsAllEntries(entries);
    SortKeepsIdsDistinct(entries);
    ReferenceIsSource(request, execution, gate, r);
    var j :| 0 <= j < |sources| && sources[j].reference == Some(r);
    assert Covered(entries, r);
    var i :| 0 <= i < |entries| && StandsFor(entries[i], r);
    assert entries[i] in entries;
  }

  lemma ReferenceIsSource(request: GateRequest, execution: ExecutionContract, gate: GateContract, r: ArtifactReference)
    requires Referenced(request, execution, gate, r)
    ensures exists j :: 0 <= j < |Sources(request, execution, gate)| && Sources(request, execution, gate)[j].reference == Some(r)
  {
    var task := Source(Some(r), TaskInput, "task-package", request.taskPackageVersion);
    var change := Source(Some(r), ChangeExecution, "ChangeExecutionService", execution.executorVersion);
    var release := Source(Some(r), ReleaseGate, "ReleaseGateService", gate.gateVersion);
    SourcesAre(request, execution, gate, task);
    SourcesAre(request, execution, gate, change);
    SourcesAre(request, execution, gate, release);
    Flattened(gate.controlArtifacts, r);
    var sources := Sources(request, execution, gate);
    assert task in sources || change in sources || release in sources;
  }

  function Rank(p: Phase): nat {
    match p
    case ChangeExecution => 0
    case ReleaseGate => 1
    case TaskInput => 2
  }

  /** The artifacts are listed by phase, and within a phase by id in code-point order. */
  lemma ArtifactsAreInOrder(
    c: Codec, request: GateRequest, execution: ExecutionContract, gate: GateContract, now: int, m: RunManifest,
    i: nat, j: nat)
    requires Describes(c, request, execution, gate, now, m) && i < j < |m.core.artifacts|
    ensures
      var a, b := m.core.artifacts[i], m.core.artifacts[j];
      Rank(a.phase) < Rank(b.phase) || (a.phase == b.phase && Precedes(a.artifactId, b.artifactId))
  {
    var a, b := m.core.artifacts[i], m.core.artifacts[j];
    var entries :| Represents(c, Sources(request, execution, gate), entries)
                   && m.core.artifacts == SortBy(entries, EntryLeq);
    SortKeepsIdsDistinct(entries);
    ManifestOrderIsCanonical(entries, entries);
    assert EntryLeq(a, b) && a.artifactId != b.artifactId;
    if a.phase == b.phase {
      LeqMeans(a.artifactId, b.artifactId);
    } else {
      PhasesRank(a.phase, b.phase);
    }
  }

  lemma PhasesRank(a: Phase, b: Phase)
    requires a != b && Leq(PhaseName(a), PhaseName(b))
    ensures Rank(a) < Rank(b)
  {
    assert PhaseName(a)[0] <= PhaseName(b)[0];
  }

  // ----- Refusals -----------------------------------------------------------------------

  /** Why a run is refused, without an I/O error. */
  lemma RefusalsMean(
    c: Codec, files: Files, request: GateRequest, execution: ExecutionContract, gate: GateContract, now: int,
    e: RecorderError)
    requires Refuses(c, files, request, execution, gate, now, e)
    ensures e == RunIdentityMismatch <==>
      || execution.runId != request.runId || gate.runId != request.runId
      || Lower(execution.baseCommit) != Lower(request.baseCommit) || Lower(gate.baseCommit) != Lower(request.baseCommit)
      || execution.candidateCommit.None?
      || Lower(execution.candidateCommit.value) != Lower(request.candidateCommit)
      || Lower(gate.candidateCommit) != Lower(request.candidateCommit)
    ensures e == InvalidToolCalls ==> gate.toolCalls.None? || gate.toolCalls.value < 0
    ensures e.AmbiguousArtifactId? ==>
      exists r, s :: Referenced(request, execution, gate, r) && Referenced(request, execution, gate, s)
        && r.artifactId == s.artifactId == e.artifactId && r.sha256 != s.sha256
    ensures e.ArtifactRejected? ==>
      exists r :: Referenced(request, execution, gate, r) && r.artifactId == e.artifactId
        && (!r.immutable || r.sha256.None? || r.content.None?
            || c.sha256(r.content.value) != Lower(r.sha256.value)
            || (r.sizeBytes.Some? && r.sizeBytes.value != |r.content.value|))
  {
    var sources := Sources(request, execution, gate);
    if e.ArtifactRejected? || e.AmbiguousArtifactId? {
      var n: nat :| FirstFault(c, sources, n, e);
      SourceIsReference(request, execution, gate, sources[n]);
      if e.AmbiguousArtifactId? {
        var k :| 0 <= k < n && Disagree(sources[k], sources[n]);
        SourceIsReference(request, execution, gate, sources[k]);
      }
    }
  }

  lemma SourceIsReference(request: GateRequest, execution: ExecutionContract, gate: GateContract, s: Source)
    requires s in Sources(request, execution, gate) && s.reference.Some?
    ensures Referenced(request, execution, gate, s.reference.value)
  {
    SourcesAre(request, execution, gate, s);
    Flattened(gate.controlArtifacts, s.reference.value);
  }
}
