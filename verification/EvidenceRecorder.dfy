/** From the contracts of a finished run to its published manifest. */
module EvidenceRecorder {
  import opened Prelude
  import opened Text
  import opened Ordering
  import opened EvidenceKeys
  import opened EvidenceModel
  import opened StoreProtocol
  import opened EvidenceStore
  import opened ManifestVerifier

  /** An artifact reference, with what reading its location yields. */
  datatype ArtifactReference = ArtifactReference(
    artifactId: string,
    kind: string,
    uri: string,
    sha256: Option<string>,
    mediaType: string,
    sizeBytes: Option<nat>,
    immutable: bool,
    metadata: map<string, string>,
    content: Option<Bytes>)

  /** What the shared contract guarantees of every reference: digests are in lower case,
      and an immutable artifact has one. */
  predicate ValidReference(r: ArtifactReference) {
    && (r.sha256.Some? ==> LegalDigest(r.sha256.value))
    && (r.immutable ==> r.sha256.Some?)
  }

  /** A reference in one of the contracts, and the phase that produced it. */
  datatype Source = Source(
    reference: Option<ArtifactReference>, phase: Phase, producer: string, producerVersion: string)

  predicate ValidSources(sources: seq<Source>) {
    forall j :: 0 <= j < |sources| && sources[j].reference.Some? ==> ValidReference(sources[j].reference.value)
  }

  datatype GateRequest = GateRequest(
    runId: string, taskType: string, repositoryUrl: string, baseCommit: string, candidateCommit: string,
    taskPackageVersion: string,
    requirementContract: ArtifactReference,
    evaluationSpecification: ArtifactReference,
    releasePolicy: ArtifactReference)

  datatype TokenUsage = TokenUsage(llmCalls: nat, inputTokens: nat, outputTokens: nat, estimatedCost: nat)

  datatype ExecutionContract = ExecutionContract(
    runId: string, baseCommit: string, candidateCommit: Option<string>, executorVersion: string, status: string,
    patchArtifact: Option<ArtifactReference>,
    executionArtifacts: seq<ArtifactReference>,
    usage: TokenUsage, startedAt: int, completedAt: int)

  /** `toolCalls` is the parsed metadata field, absent when it is no integer. */
  datatype GateContract = GateContract(
    runId: string, baseCommit: string, candidateCommit: string, gateVersion: string, policyVersion: string,
    decision: string,
    evidencePackage: ArtifactReference,
    controlArtifacts: seq<seq<ArtifactReference>>,
    metrics: map<string, int>,
    decisionReasons: seq<string>, unmetObligations: seq<string>, contradictions: seq<string>,
    candidateTree: Option<string>,
    toolCalls: Option<int>,
    generatedTests: nat, qualifiedGeneratedTests: nat, mutantsGenerated: nat, meaningfulMutantsSurvived: nat,
    usage: TokenUsage, startedAt: int, completedAt: int)

  datatype RecorderError =
    | RunIdentityMismatch
    | ArtifactRejected(artifactId: string)
    | AmbiguousArtifactId(artifactId: string)
    | InvalidToolCalls
    | StoreRefused(cause: StoreError)

  predicate SameRun(request: GateRequest, execution: ExecutionContract, gate: GateContract) {
    && execution.runId == request.runId
    && gate.runId == request.runId
    && Lower(execution.baseCommit) == Lower(request.baseCommit)
    && Lower(gate.baseCommit) == Lower(request.baseCommit)
    && execution.candidateCommit.Some?
    && Lower(execution.candidateCommit.value) == Lower(request.candidateCommit)
    && Lower(gate.candidateCommit) == Lower(request.candidateCommit)
  }

  function Each(references: seq<ArtifactReference>, phase: Phase, producer: string, version: string): seq<Source> {
    seq(|references|, i requires 0 <= i < |references| => Source(Some(references[i]), phase, producer, version))
  }

  function Flatten(lists: seq<seq<ArtifactReference>>): seq<ArtifactReference> {
    if lists == [] then [] else lists[0] + Flatten(lists[1..])
  }

  /** Every reference of the three contracts, in the order they are ingested. */
  function Sources(request: GateRequest, execution: ExecutionContract, gate: GateContract): seq<Source> {
    [Source(Some(request.requirementContract), TaskInput, "task-package", request.taskPackageVersion),
     Source(Some(request.evaluationSpecification), TaskInput, "task-package", request.taskPackageVersion),
     Source(Some(request.releasePolicy), TaskInput, "task-package", request.taskPackageVersion),
     Source(execution.patchArtifact, ChangeExecution, "ChangeExecutionService", execution.executorVersion)]
    + Each(execution.executionArtifacts, ChangeExecution, "ChangeExecutionService", execution.executorVersion)
    + [Source(Some(gate.evidencePackage), ReleaseGate, "ReleaseGateService", gate.gateVersion)]
    + Each(Flatten(gate.controlArtifacts), ReleaseGate, "ReleaseGateService", gate.gateVersion)
  }

  /** What the recorder demands of one reference. */
  predicate Admissible(c: Codec, r: ArtifactReference) {
    && r.immutable && r.sha256.Some? && r.content.Some?
    && c.sha256(r.content.value) == Lower(r.sha256.value)
    && (r.sizeBytes.Some? ==> r.sizeBytes.value == |r.content.value|)
  }

  function EntryOf(c: Codec, s: Source): Entry
    requires s.reference.Some? && s.reference.value.content.Some?
  {
    var r := s.reference.value;
    var digest := c.sha256(r.content.value);
    Entry(r.artifactId, r.kind, s.phase, digest, |r.content.value|, r.mediaType, ObjectKey(digest), r.uri,
          s.producer, s.producerVersion, r.metadata)
  }

  /** The manifest order: phase name, then artifact id, then digest. */
  predicate EntryLeq(a: Entry, b: Entry) {
    if a.phase != b.phase then Leq(PhaseName(a.phase), PhaseName(b.phase))
    else if a.artifactId != b.artifactId then Leq(a.artifactId, b.artifactId)
    else Leq(a.sha256, b.sha256)
  }

  predicate DistinctIds(entries: seq<Entry>) {
    forall i, j :: 0 <= i < j < |entries| ==> entries[i].artifactId != entries[j].artifactId
  }

  lemma PhasesAreOrdered(a: Phase, b: Phase)
    ensures Leq(PhaseName(a), PhaseName(b)) && Leq(PhaseName(b), PhaseName(a)) ==> a == b
  {
    if Leq(PhaseName(a), PhaseName(b)) && Leq(PhaseName(b), PhaseName(a)) {
      LeqAntisymmetric(PhaseName(a), PhaseName(b));
      PhaseNamesDiffer(a, b);
    }
  }

  lemma EntriesAreOrdered()
    ensures TotalOrder(EntryLeq)
  {
    StringsAreOrdered();
    forall a, b, c | EntryLeq(a, b) && EntryLeq(b, c)
      ensures EntryLeq(a, c)
    {
      PhasesAreOrdered(a.phase, b.phase);
      PhasesAreOrdered(b.phase, c.phase);
      PhasesAreOrdered(a.phase, c.phase);
    }
  }

  /** With distinct ids the sorted list does not depend on the traversal order. */
  lemma ManifestOrderIsCanonical(xs: seq<Entry>, ys: seq<Entry>)
    requires DistinctIds(xs) && multiset(xs) == multiset(ys)
    ensures SortBy(xs, EntryLeq) == SortBy(ys, EntryLeq)
    ensures SortedBy(SortBy(xs, EntryLeq), EntryLeq)
  {
    EntriesAreOrdered();
    SortOrders(xs, EntryLeq);
    forall i, j | 0 <= i < |xs| && 0 <= j < |xs| && EntryLeq(xs[i], xs[j]) && EntryLeq(xs[j], xs[i])
      ensures xs[i] == xs[j]
    {
      PhasesAreOrdered(xs[i].phase, xs[j].phase);
      if xs[i].artifactId != xs[j].artifactId {
        LeqAntisymmetric(xs[i].artifactId, xs[j].artifactId);
      }
    }
    SortIgnoresOrder(xs, ys, EntryLeq);
  }

  // ----- What a recorded manifest owes its sources --------------------------

  predicate Names(s: Source, id: string) { s.reference.Some? && s.reference.value.artifactId == id }

  /** No earlier source uses the id of source `j`. */
  predicate FirstUse(sources: seq<Source>, j: nat)
    requires j < |sources| && sources[j].reference.Some?
  {
    forall k :: 0 <= k < j ==> !Names(sources[k], sources[j].reference.value.artifactId)
  }

  /** `e` was ingested from source `j`, the first to use its id. */
  predicate IngestedFrom(c: Codec, sources: seq<Source>, j: nat, e: Entry) {
    && j < |sources| && sources[j].reference.Some? && FirstUse(sources, j)
    && Admissible(c, sources[j].reference.value)
    && e == EntryOf(c, sources[j])
  }

  /** `e` stands for the reference `r`: same id, same digest. */
  predicate StandsFor(e: Entry, r: ArtifactReference) {
    e.artifactId == r.artifactId && r.sha256.Some? && e.sha256 == Lower(r.sha256.value)
  }

  /** The entries made from the first `n` sources: nothing invented, nothing
      skipped, no id twice. */
  ghost predicate RepresentsFirst(c: Codec, sources: seq<Source>, n: nat, entries: seq<Entry>)
    requires n <= |sources|
  {
    && DistinctIds(entries)
    && (forall e :: e in entries ==> exists j: nat :: j < n && IngestedFrom(c, sources, j, e))
    && (forall j :: 0 <= j < n && sources[j].reference.Some? ==> Covered(entries, sources[j].reference.value))
  }

  predicate Covered(entries: seq<Entry>, r: ArtifactReference) {
    exists i :: 0 <= i < |entries| && StandsFor(entries[i], r)
  }

  ghost predicate Represents(c: Codec, sources: seq<Source>, entries: seq<Entry>) {
    RepresentsFirst(c, sources, |sources|, entries)
  }

  predicate Readable(s: Source) { s.reference.Some? && s.reference.value.content.Some? }

  function ContentOf(s: Source): Bytes
    requires Readable(s)
  {
    s.reference.value.content.value
  }

  /** Every artifact has the recorded size in the store. */
  predicate SizesAgree(files: Files, artifacts: seq<Entry>) {
    forall i :: 0 <= i < |artifacts| ==>
      artifacts[i].sha256 in files.objects && |files.objects[artifacts[i].sha256]| == artifacts[i].sizeBytes
  }

  /** Some source has another content of the same digest stored in its place. */
  predicate Collides(c: Codec, files: Files, sources: seq<Source>) {
    exists j :: 0 <= j < |sources| && Readable(sources[j]) && Supplanted(c, files, ContentOf(sources[j]))
  }

  predicate Supplanted(c: Codec, files: Files, content: Bytes) {
    var digest := c.sha256(content);
    && digest in files.objects && files.objects[digest] != content
    && c.sha256(files.objects[digest]) == digest
  }

  // ----- What the sources must be ---------------------------------------------

  /** Source `j` can be ingested after the ones before it: the first reference of an id
      must be admissible, and a later one must repeat its digest. */
  predicate Ingestible(c: Codec, sources: seq<Source>, j: nat)
    requires j < |sources|
  {
    sources[j].reference.Some? ==>
      && (FirstUse(sources, j) ==> Admissible(c, sources[j].reference.value))
      && (forall k :: 0 <= k < j ==> !Disagree(sources[k], sources[j]))
  }

  /** Two references of one id with different digests. */
  predicate Disagree(a: Source, b: Source) {
    && a.reference.Some? && b.reference.Some?
    && a.reference.value.artifactId == b.reference.value.artifactId
    && a.reference.value.sha256 != b.reference.value.sha256
  }

  predicate AllIngestible(c: Codec, sources: seq<Source>, n: nat)
    requires n <= |sources|
  {
    forall j :: 0 <= j < n ==> Ingestible(c, sources, j)
  }

  /** The first source that cannot be ingested, and the error it raises. */
  predicate FirstFault(c: Codec, sources: seq<Source>, n: nat, e: RecorderError) {
    && n < |sources| && AllIngestible(c, sources, n) && sources[n].reference.Some?
    && var r := sources[n].reference.value;
    && if FirstUse(sources, n) then e == ArtifactRejected(r.artifactId) && !Admissible(c, r)
       else e == AmbiguousArtifactId(r.artifactId) && exists k :: 0 <= k < n && Disagree(sources[k], sources[n])
  }

  // ----- Recording ----------------------------------------------------------

  /** Stores one artifact, if and only if it is admissible and no step fails. */
  method IngestArtifact(store: LocalEvidenceStore, s: Source) returns (r: Result<Entry, RecorderError>)
    requires s.reference.Some? && store.Valid()
    modifies store
    ensures store.Valid() && Extends(old(store.files), store.files) && old(store.steps) <= store.steps
    ensures
      var reference := s.reference.value;
      && (!Admissible(store.codec, reference) ==> r == Err(ArtifactRejected(reference.artifactId)))
      && (Admissible(store.codec, reference) && !Calm(store.env, old(store.steps), store.steps) ==>
            r == Err(StoreRefused(IoError)))
      && (Admissible(store.codec, reference) && Calm(store.env, old(store.steps), store.steps) ==>
            r == Ok(EntryOf(store.codec, s)) && r.value.sha256 in store.files.objects)
      && (r.Err? && r.error.ArtifactRejected? ==> store.steps == old(store.steps) && store.files == old(store.files))
  {
    var reference := s.reference.value;
    var id := reference.artifactId;
    if !reference.immutable { return Err(ArtifactRejected(id)); }
    if reference.sha256.None? { return Err(ArtifactRejected(id)); }
    if reference.content.None? { return Err(ArtifactRejected(id)); }
    var content := reference.content.value;
    var digest := store.codec.sha256(content);
    if digest != Lower(reference.sha256.value) { return Err(ArtifactRejected(id)); }
    if reference.sizeBytes.Some? && reference.sizeBytes.value != |content| { return Err(ArtifactRejected(id)); }
    PutAmid(store.codec, store.State(), store.verifyAfterWrite, content, reference.sha256, store.env, store.steps);
    var reply := store.PutObject(content, reference.sha256);
    if reply.Err? { return Err(StoreRefused(reply.error)); }
    r := Ok(Entry(id, reference.kind, s.phase, digest, |content|, reference.mediaType, reply.value, reference.uri,
                  s.producer, s.producerVersion, reference.metadata));
  }

  lemma DigestIsLower(d: string)
    requires LegalDigest(d)
    ensures Lower(d) == d
  {}

  predicate Seen(entries: seq<Entry>, id: string) {
    exists i :: 0 <= i < |entries| && entries[i].artifactId == id
  }

  /** A source whose id is new adds its entry. */
  lemma NewSource(c: Codec, sources: seq<Source>, n: nat, entries: seq<Entry>)
    requires n < |sources| && sources[n].reference.Some? && RepresentsFirst(c, sources, n, entries)
    requires !Seen(entries, sources[n].reference.value.artifactId)
    requires Admissible(c, sources[n].reference.value)
    ensures RepresentsFirst(c, sources, n + 1, entries + [EntryOf(c, sources[n])])
  {
    var r := sources[n].reference.value;
    var longer := entries + [EntryOf(c, sources[n])];
    forall k | 0 <= k < n
      ensures !Names(sources[k], r.artifactId)
    {
      if Names(sources[k], r.artifactId) {
        assert Covered(entries, sources[k].reference.value);
        assert Seen(entries, r.artifactId);
      }
    }
    assert IngestedFrom(c, sources, n, longer[|entries|]);
    assert StandsFor(longer[|entries|], r);
    forall j | 0 <= j < n && sources[j].reference.Some?
      ensures Covered(longer, sources[j].reference.value)
    {
      assert Covered(entries, sources[j].reference.value);
      var i :| 0 <= i < |entries| && StandsFor(entries[i], sources[j].reference.value);
      assert longer[i] == entries[i];
    }
  }

  /** The entry of an id records the digest of the id's first reference. */
  lemma EntryHasDigest(c: Codec, sources: seq<Source>, n: nat, entries: seq<Entry>, e: Entry) returns (j: nat)
    requires ValidSources(sources) && n <= |sources| && RepresentsFirst(c, sources, n, entries) && e in entries
    ensures j < n && IngestedFrom(c, sources, j, e) && sources[j].reference.value.sha256 == Some(e.sha256)
    ensures e.artifactId == sources[j].reference.value.artifactId
  {
    j :| j < n && IngestedFrom(c, sources, j, e);
    DigestIsLower(sources[j].reference.value.sha256.value);
  }

  /** Among ingestible sources an id always comes with the same digest. */
  lemma DigestsAgree(c: Codec, sources: seq<Source>, n: nat, j: nat, k: nat)
    requires j < n <= |sources| && k < n && AllIngestible(c, sources, n)
    ensures !Disagree(sources[j], sources[k])
  {
    if j < k {
      assert Ingestible(c, sources, k);
    } else if k < j {
      assert Ingestible(c, sources, j);
      assert !Disagree(sources[k], sources[j]);
    }
  }

  /** A repeated id whose digest is the one recorded adds nothing. */
  lemma RepeatedSource(c: Codec, sources: seq<Source>, n: nat, entries: seq<Entry>, e: Entry)
    requires n < |sources| && sources[n].reference.Some? && RepresentsFirst(c, sources, n, entries)
    requires ValidSources(sources) && AllIngestible(c, sources, n)
    requires e in entries && e.artifactId == sources[n].reference.value.artifactId
    requires Some(e.sha256) == sources[n].reference.value.sha256
    ensures RepresentsFirst(c, sources, n + 1, entries) && Ingestible(c, sources, n)
  {
    var j := EntryHasDigest(c, sources, n, entries, e);
    DigestIsLower(e.sha256);
    assert StandsFor(e, sources[n].reference.value);
    assert Names(sources[j], e.artifactId);
    forall k | 0 <= k < n
      ensures !Disagree(sources[k], sources[n])
    {
      DigestsAgree(c, sources, n, j, k);
    }
  }

  /** A repeated id with another digest is the first fault. */
  lemma DigestsDiffer(c: Codec, sources: seq<Source>, n: nat, entries: seq<Entry>, e: Entry)
    requires n < |sources| && sources[n].reference.Some? && RepresentsFirst(c, sources, n, entries)
    requires ValidSources(sources) && AllIngestible(c, sources, n)
    requires e in entries && e.artifactId == sources[n].reference.value.artifactId
    requires Some(e.sha256) != sources[n].reference.value.sha256
    ensures FirstFault(c, sources, n, AmbiguousArtifactId(e.artifactId))
  {
    var j := EntryHasDigest(c, sources, n, entries, e);
    assert Names(sources[j], e.artifactId) && Disagree(sources[j], sources[n]);
  }

  /** A source whose id no entry has is the first to use it. */
  lemma UnseenIsFirst(c: Codec, sources: seq<Source>, n: nat, entries: seq<Entry>)
    requires n < |sources| && sources[n].reference.Some? && RepresentsFirst(c, sources, n, entries)
    requires !Seen(entries, sources[n].reference.value.artifactId)
    ensures FirstUse(sources, n) && forall k :: 0 <= k < n ==> !Disagree(sources[k], sources[n])
  {
    forall k | 0 <= k < n
      ensures !Names(sources[k], sources[n].reference.value.artifactId)
    {
      if sources[k].reference.Some? { CoveredIsSeen(entries, sources[k].reference.value); }
    }
  }

  lemma CoveredIsSeen(entries: seq<Entry>, r: ArtifactReference)
    requires Covered(entries, r)
    ensures Seen(entries, r.artifactId)
  {
    var i :| 0 <= i < |entries| && StandsFor(entries[i], r);
    assert entries[i].artifactId == r.artifactId;
  }

  /** Sources with a fault at `n` are not all ingestible. */
  lemma FaultIsNotIngestible(c: Codec, sources: seq<Source>, n: nat, e: RecorderError)
    requires FirstFault(c, sources, n, e)
    ensures !AllIngestible(c, sources, |sources|)
  {
    assert !Ingestible(c, sources, n) by {
      if !FirstUse(sources, n) { var k :| 0 <= k < n && Disagree(sources[k], sources[n]); }
    }
  }

  /** Ingests the sources in order. It succeeds exactly when every source is ingestible and
      no step fails; otherwise it raises the error of the first source that is not
      ingestible, or the failure. */
  method IngestAll(store: LocalEvidenceStore, sources: seq<Source>) returns (r: Result<seq<Entry>, RecorderError>)
    requires store.Valid() && ValidSources(sources)
    modifies store
    ensures store.Valid() && Extends(old(store.files), store.files) && old(store.steps) <= store.steps
    ensures r.Ok? <==>
      AllIngestible(store.codec, sources, |sources|) && Calm(store.env, old(store.steps), store.steps)
    ensures r.Err? ==>
      if Calm(store.env, old(store.steps), store.steps)
      then exists n: nat :: FirstFault(store.codec, sources, n, r.error)
      else r.error == StoreRefused(IoError)
    ensures r.Ok? ==> Represents(store.codec, sources, r.value)
    ensures r.Ok? ==> forall e :: e in r.value ==> e.sha256 in store.files.objects
  {
    var c := store.codec;
    var list := Listing([], {});
    for i := 0 to |sources|
      invariant store.Valid() && Extends(old(store.files), store.files) && old(store.steps) <= store.steps
      invariant Lists(c, sources, i, list, store.files) && Calm(store.env, old(store.steps), store.steps)
    {
      ghost var before := store.files;
      var next := IngestNext(store, sources, i, list);
      ExtendsTransitive(old(store.files), before, store.files);
      if next.Err? {
        if next.error != StoreRefused(IoError) { FaultIsNotIngestible(c, sources, i, next.error); }
        return Err(next.error);
      }
      list := next.value;
    }
    r := Ok(list.artifacts);
  }

  /** The artifacts listed so far and the ids they use. */
  datatype Listing = Listing(artifacts: seq<Entry>, seen: set<string>)

  /** The listing is what the first `n` sources, all of them ingestible, come to. */
  ghost predicate Lists(c: Codec, sources: seq<Source>, n: nat, list: Listing, files: Files)
    requires n <= |sources|
  {
    && RepresentsFirst(c, sources, n, list.artifacts) && AllIngestible(c, sources, n)
    && (forall id :: id in list.seen <==> Seen(list.artifacts, id))
    && (forall e :: e in list.artifacts ==> e.sha256 in files.objects)
  }

  /** One turn of the loop: the i-th source. */
  method IngestNext(store: LocalEvidenceStore, sources: seq<Source>, i: nat, list: Listing)
    returns (r: Result<Listing, RecorderError>)
    requires store.Valid() && ValidSources(sources)
    requires i < |sources| && Lists(store.codec, sources, i, list, store.files)
    modifies store
    ensures store.Valid() && Extends(old(store.files), store.files) && old(store.steps) <= store.steps
    ensures r.Ok? ==>
      Lists(store.codec, sources, i + 1, r.value, store.files) && Calm(store.env, old(store.steps), store.steps)
    ensures r.Err? ==>
      if Calm(store.env, old(store.steps), store.steps) then FirstFault(store.codec, sources, i, r.error)
      else r.error == StoreRefused(IoError)
  {
    var c := store.codec;
    if sources[i].reference.None? { return Ok(list); }
    var reference := sources[i].reference.value;
    if reference.artifactId in list.seen {
      var existing := Find(list.artifacts, reference.artifactId);
      if Some(existing.sha256) != reference.sha256 {
        DigestsDiffer(c, sources, i, list.artifacts, existing);
        return Err(AmbiguousArtifactId(reference.artifactId));
      }
      RepeatedSource(c, sources, i, list.artifacts, existing);
      return Ok(list);
    }
    UnseenIsFirst(c, sources, i, list.artifacts);
    var ingested := IngestArtifact(store, sources[i]);
    if ingested.Err? { return Err(ingested.error); }
    NewSource(c, sources, i, list.artifacts);
    SeenGrows(list.artifacts, ingested.value);
    r := Ok(Listing(list.artifacts + [ingested.value], list.seen + {reference.artifactId}));
  }

  /** The entry that uses an id. */
  method Find(artifacts: seq<Entry>, id: string) returns (e: Entry)
    requires Seen(artifacts, id)
    ensures e in artifacts && e.artifactId == id
  {
    var k := 0;
    while artifacts[k].artifactId != id
      invariant k < |artifacts| && forall i :: 0 <= i < k ==> artifacts[i].artifactId != id
      decreases |artifacts| - k
    {
      k := k + 1;
    }
    e := artifacts[k];
  }

  lemma SeenGrows(entries: seq<Entry>, e: Entry)
    ensures forall id :: Seen(entries + [e], id) <==> Seen(entries, id) || id == e.artifactId
  {
    var longer := entries + [e];
    assert longer[|entries|] == e;
    assert forall i :: 0 <= i < |entries| ==> longer[i] == entries[i];
  }

  /** The sorted manifest still has every id once, so the manifest's own
      uniqueness validator never rejects what the recorder built. */
  lemma SortKeepsIdsDistinct(entries: seq<Entry>)
    requires DistinctIds(entries)
    ensures DistinctIds(SortBy(entries, EntryLeq))
  {
    var sorted := SortBy(entries, EntryLeq);
    forall i, j | 0 <= i < j < |sorted|
      ensures sorted[i].artifactId != sorted[j].artifactId
    {
      if sorted[i].artifactId == sorted[j].artifactId {
        assert sorted[i] in multiset(entries) && sorted[j] in multiset(entries);
        assert sorted[i] == sorted[j];
        OccursTwice(sorted, i, j);
        OccursOnce(entries, sorted[i]);
      }
    }
  }

  lemma OccursTwice(xs: seq<Entry>, i: nat, j: nat)
    requires i < j < |xs| && xs[i] == xs[j]
    ensures multiset(xs)[xs[i]] >= 2
  {
    assert xs == xs[..j] + [xs[j]] + xs[j + 1..];
    assert xs[..j] == xs[..i] + [xs[i]] + xs[i + 1..j];
  }

  lemma {:induction false} OccursOnce(xs: seq<Entry>, e: Entry)
    requires DistinctIds(xs)
    ensures multiset(xs)[e] <= 1
    decreases |xs|
  {
    if xs != [] {
      var n := |xs| - 1;
      assert xs == xs[..n] + [xs[n]];
      OccursOnce(xs[..n], e);
      if xs[n] == e {
        assert forall i :: 0 <= i < n ==> xs[..n][i].artifactId != e.artifactId;
        assert e !in xs[..n];
      }
    }
  }

  /** In a sound store only the size of an artifact can be wrong, and only if another
      content of its digest is stored. */
  lemma RecordedEntriesAreIntact(c: Codec, files: Files, sources: seq<Source>, entries: seq<Entry>)
    requires Lawful(c) && SoundStore(c, files) && Represents(c, sources, entries)
    requires forall e :: e in entries ==> e.sha256 in files.objects
    ensures AllIntact(c, ViewOf(files), SortBy(entries, EntryLeq)) <==> SizesAgree(files, SortBy(entries, EntryLeq))
    ensures !SizesAgree(files, SortBy(entries, EntryLeq)) ==> Collides(c, files, sources)
  {
    var sorted := SortBy(entries, EntryLeq);
    forall i | 0 <= i < |sorted|
      ensures sorted[i].sha256 in files.objects
      ensures Classify(c, ViewOf(files), i, sorted[i]) == Intact
         <==> |files.objects[sorted[i].sha256]| == sorted[i].sizeBytes
      ensures |files.objects[sorted[i].sha256]| != sorted[i].sizeBytes ==> Collides(c, files, sources)
    {
      assert sorted[i] in multiset(sorted) && sorted[i] in entries;
      EntryIsIntact(c, files, sources, i, sorted[i], entries);
    }
  }

  lemma EntryIsIntact(c: Codec, files: Files, sources: seq<Source>, i: nat, e: Entry, entries: seq<Entry>)
    requires Lawful(c) && SoundStore(c, files) && Represents(c, sources, entries)
    requires e in entries && e.sha256 in files.objects
    ensures Classify(c, ViewOf(files), i, e) == Intact <==> |files.objects[e.sha256]| == e.sizeBytes
    ensures |files.objects[e.sha256]| != e.sizeBytes ==> Collides(c, files, sources)
  {
    var j: nat :| j < |sources| && IngestedFrom(c, sources, j, e);
    IssuedKeysResolve(e.sha256);
    assert |files.objects[e.sha256]| != e.sizeBytes ==> Supplanted(c, files, ContentOf(sources[j]));
  }

  /** The components of a run, in the order of their names. */
  function Components(execution: ExecutionContract, gate: GateContract): seq<Component> {
    [Component("ChangeExecutionService", execution.executorVersion,
               Some(execution.startedAt), Some(execution.completedAt), execution.status),
     Component("EvidenceRecorder", RECORDER_VERSION, None, None, "recorded"),
     Component("ReleaseGateService", gate.gateVersion, Some(gate.startedAt), Some(gate.completedAt), gate.decision)]
  }

  const RECORDER_VERSION := "0.1.0"

  function Version(r: ArtifactReference): Option<string> {
    if "version" in r.metadata then Some(r.metadata["version"]) else None
  }

  function CoreOf(request: GateRequest, execution: ExecutionContract, gate: GateContract,
                  toolCalls: nat, artifacts: seq<Entry>): ManifestCore {
    ManifestCore(
      request.runId, request.taskType, request.taskPackageVersion, request.repositoryUrl,
      Lower(request.baseCommit), Lower(request.candidateCommit),
      (match gate.candidateTree case Some(tree) => if tree == "" then None else Some(Lower(tree)) case None => None),
      gate.decision, gate.gateVersion, gate.policyVersion,
      Version(request.requirementContract), Version(request.evaluationSpecification),
      Components(execution, gate), artifacts, gate.metrics,
      gate.decisionReasons, gate.unmetObligations, gate.contradictions,
      Consumed(execution.usage.llmCalls + gate.usage.llmCalls,
               execution.usage.inputTokens + gate.usage.inputTokens,
               execution.usage.outputTokens + gate.usage.outputTokens,
               execution.usage.estimatedCost + gate.usage.estimatedCost,
               toolCalls,
               gate.generatedTests, gate.qualifiedGeneratedTests,
               gate.mutantsGenerated, gate.meaningfulMutantsSurvived),
      if gate.startedAt < execution.startedAt then gate.startedAt else execution.startedAt,
      if execution.completedAt < gate.completedAt then gate.completedAt else execution.completedAt)
  }

  /** What the shared contracts guarantee of the three inputs. */
  predicate ValidInputs(request: GateRequest, execution: ExecutionContract, gate: GateContract) {
    && ValidSources(Sources(request, execution, gate))
    && execution.startedAt <= execution.completedAt && gate.startedAt <= gate.completedAt
  }

  /** The manifest's own validators. */
  predicate ValidCore(core: ManifestCore) {
    DistinctIds(core.artifacts) && core.artifacts != [] && core.startedAt <= core.completedAt
  }

  /** The manifest that recording these contracts at `now` would publish. */
  ghost predicate Describes(
    c: Codec, request: GateRequest, execution: ExecutionContract, gate: GateContract, now: int, m: RunManifest)
  {
    && gate.toolCalls.Some? && gate.toolCalls.value >= 0
    && m.core == CoreOf(request, execution, gate, gate.toolCalls.value, m.core.artifacts)
    && m.manifestSha256 == c.sha256(c.canonicalCore(m.core)) && m.publishedAt == now
    && exists entries :: Represents(c, Sources(request, execution, gate), entries)
                         && m.core.artifacts == SortBy(entries, EntryLeq)
  }

  /** Another manifest than the one to publish is stored for the run. */
  ghost predicate OtherwiseRecorded(
    c: Codec, files: Files, request: GateRequest, execution: ExecutionContract, gate: GateContract, now: int)
  {
    && request.runId in files.manifests
    && exists m :: Describes(c, request, execution, gate, now, m) && StoredManifest(c, files, request.runId) != Some(m)
  }

  /** Why a run may not be recorded, in the order the recorder finds out, if no step fails. */
  ghost predicate Refuses(
    c: Codec, files: Files, request: GateRequest, execution: ExecutionContract, gate: GateContract, now: int,
    e: RecorderError)
  {
    var sources := Sources(request, execution, gate);
    if e == RunIdentityMismatch then !SameRun(request, execution, gate)
    else
      && SameRun(request, execution, gate)
      && if e.ArtifactRejected? || e.AmbiguousArtifactId? then exists n: nat :: FirstFault(c, sources, n, e)
         else
           && AllIngestible(c, sources, |sources|)
           && if e == InvalidToolCalls then !CountsToolCalls(gate)
              else
                && CountsToolCalls(gate)
                && (!SafeRunId(request.runId) || OtherwiseRecorded(c, files, request, execution, gate, now))
  }

  predicate CountsToolCalls(gate: GateContract) {
    gate.toolCalls.Some? && gate.toolCalls.value >= 0
  }

  /** Records a run. If it returns, the manifest is stored under the run's id (`Certain` says
      when that is so without reading it back), passes its own validators, represents every
      referenced artifact once, and verifies exactly when the stored sizes agree, which only
      two contents of one digest can prevent. If it raises, a step failed or the run is
      refused for the reason given. */
  method RecordRun(
      store: LocalEvidenceStore, request: GateRequest, execution: ExecutionContract, gate: GateContract, now: int)
    returns (r: Result<RunManifest, RecorderError>)
    requires store.Valid() && ValidInputs(request, execution, gate)
    modifies store
    ensures store.Valid() && Extends(old(store.files), store.files) && old(store.steps) <= store.steps
    ensures r == Err(StoreRefused(IoError)) <==> !Calm(store.env, old(store.steps), store.steps)
    ensures r.Err? && r.error != StoreRefused(IoError) ==>
      Refuses(store.codec, store.files, request, execution, gate, now, r.error)
    ensures r.Ok? ==>
      && SameRun(request, execution, gate) && SafeRunId(request.runId)
      && AllIngestible(store.codec, Sources(request, execution, gate), |Sources(request, execution, gate)|)
      && Describes(store.codec, request, execution, gate, now, r.value) && ValidCore(r.value.core)
      && StoredManifest(store.codec, store.files, request.runId).Some?
      && (Certain(store.verifyAfterWrite, old(store.files), request.runId, store.env, store.steps) ==>
            StoredManifest(store.codec, store.files, request.runId) == Some(r.value))
      && var earlier := StoredManifest(store.codec, old(store.files), request.runId);
         earlier.Some? ==> earlier == Some(r.value)
    ensures r.Ok? ==>
      && (Verifies(store.codec, ViewOf(store.files), r.value) <==> SizesAgree(store.files, r.value.core.artifacts))
      && (Verifies(store.codec, ViewOf(store.files), r.value)
          || Collides(store.codec, store.files, Sources(request, execution, gate)))
  {
    var assembled := AssembleManifest(store, request, execution, gate, now);
    if assembled.Err? { return assembled; }
    var manifest := assembled.value;
    assert manifest.core.runId == request.runId;
    ghost var before, n := store.State(), store.steps;
    var reply := store.PublishManifest(manifest);
    PublishLater(store.codec, old(store.files), before, store.verifyAfterWrite, manifest, store.env, n,
                 store.State(), reply, store.steps);
    if reply.Err? { return Err(StoreRefused(reply.error)); }
    PublishedIsIntact(store.codec, store.files, request, execution, gate, now, manifest);
    r := Ok(manifest);
  }

  /** Everything up to the publication: the artifacts are stored and the manifest is built. */
  method AssembleManifest(
      store: LocalEvidenceStore, request: GateRequest, execution: ExecutionContract, gate: GateContract, now: int)
    returns (r: Result<RunManifest, RecorderError>)
    requires store.Valid() && ValidInputs(request, execution, gate)
    modifies store
    ensures store.Valid() && Extends(old(store.files), store.files) && old(store.steps) <= store.steps
    ensures r == Err(StoreRefused(IoError)) <==> !Calm(store.env, old(store.steps), store.steps)
    ensures r.Err? && r.error != StoreRefused(IoError) ==>
      !r.error.StoreRefused? && Refuses(store.codec, store.files, request, execution, gate, now, r.error)
    ensures r.Ok? ==>
      && SameRun(request, execution, gate)
      && AllIngestible(store.codec, Sources(request, execution, gate), |Sources(request, execution, gate)|)
      && Describes(store.codec, request, execution, gate, now, r.value) && ValidCore(r.value.core)
      && forall e :: e in r.value.core.artifacts ==> e.sha256 in store.files.objects
  {
    if !SameRun(request, execution, gate) { return Err(RunIdentityMismatch); }
    var c := store.codec;
    var sources := Sources(request, execution, gate);
    var ingested := IngestAll(store, sources);
    if ingested.Err? { return Err(ingested.error); }
    var entries := ingested.value;
    if gate.toolCalls.None? || gate.toolCalls.value < 0 { return Err(InvalidToolCalls); }
    var core := CoreOf(request, execution, gate, gate.toolCalls.value, SortBy(entries, EntryLeq));
    var manifest := RunManifest(core, c.sha256(c.canonicalCore(core)), now);
    SortKeepsIdsDistinct(entries);
    SomethingIsRepresented(c, request, execution, gate, entries);
    SortKeepsEntries(entries);
    r := Ok(manifest);
  }

  lemma SortKeepsEntries(entries: seq<Entry>)
    ensures forall e :: e in SortBy(entries, EntryLeq) ==> e in entries
  {
    forall e | e in SortBy(entries, EntryLeq)
      ensures e in entries
    {
      assert e in multiset(SortBy(entries, EntryLeq));
    }
  }

  /** The verification of a manifest whose artifacts are all stored. */
  lemma PublishedIsIntact(
      c: Codec, files: Files, request: GateRequest, execution: ExecutionContract, gate: GateContract, now: int,
      m: RunManifest)
    requires Lawful(c) && SoundStore(c, files) && Describes(c, request, execution, gate, now, m)
    requires forall e :: e in m.core.artifacts ==> e.sha256 in files.objects
    ensures Verifies(c, ViewOf(files), m) <==> SizesAgree(files, m.core.artifacts)
    ensures Verifies(c, ViewOf(files), m) || Collides(c, files, Sources(request, execution, gate))
  {
    var sources := Sources(request, execution, gate);
    var entries :| Represents(c, sources, entries) && m.core.artifacts == SortBy(entries, EntryLeq);
    SortsAllEntries(entries);
    RecordedEntriesAreIntact(c, files, sources, entries);
  }

  lemma SortsAllEntries(entries: seq<Entry>)
    ensures forall e :: e in entries ==> e in SortBy(entries, EntryLeq)
  {
    forall e | e in entries
      ensures e in SortBy(entries, EntryLeq)
    {
      assert e in multiset(SortBy(entries, EntryLeq));
    }
  }

  /** A publish at the end of a longer use of the store that began at `start`. */
  lemma PublishLater(
      c: Codec, start: Files, s: System, verify: bool, m: RunManifest, env: nat -> Disturbance, n: nat,
      s': System, reply: Reply, l: nat)
    requires Lawful(c) && SoundSystem(c, s) && Extends(start, s.files)
    requires (s', reply, l) == CallAmid(c, s, verify, PublishManifest(m), env, n)
    ensures Extends(start, s'.files) && Extends(s.files, s'.files) && SoundSystem(c, s') && n < l
    ensures reply == Err(IoError) <==> !Calm(env, n, l)
    ensures
      var id := m.core.runId;
      && (reply.Ok? ==>
            && SafeRunId(id) && StoredManifest(c, s'.files, id).Some?
            && (Certain(verify, start, id, env, l) ==> StoredManifest(c, s'.files, id) == Some(m))
            && (StoredManifest(c, start, id).Some? ==> StoredManifest(c, start, id) == Some(m)))
      && (reply.Err? && reply.error != IoError && IdentityValid(c, m) && SafeRunId(id) ==>
            id in s'.files.manifests && StoredManifest(c, s'.files, id) != Some(m))
  {
    PublishAmid(c, s, verify, m, env, n);
    ExtendsTransitive(start, s.files, s'.files);
    if StoredManifest(c, start, m.core.runId).Some? { StaysStored(c, start, s'.files, m.core.runId); }
  }

  lemma SomethingIsRepresented(
      c: Codec, request: GateRequest, execution: ExecutionContract, gate: GateContract, entries: seq<Entry>)
    requires Represents(c, Sources(request, execution, gate), entries)
    ensures SortBy(entries, EntryLeq) != []
  {
    assert Sources(request, execution, gate)[0].reference.Some?;
    assert Covered(entries, request.requirementContract);
  }

  /** What a verification sees that looks for each artifact, and reads it, while others
      go on using the store. */
  function Watching(c: Codec, s: System, looks: nat -> seq<Move>, later: nat -> seq<Move>): View {
    View((i: nat) => Interleave(c, s, looks(i)).files.objects.Keys,
         (i: nat) => Interleave(c, s, later(i)).files.objects)
  }

  /** After a run was recorded, its verification stays valid through any later
      interleaving of store calls, even of calls made during the verification, and its
      manifest is never replaced. */
  lemma RecordedRunStaysVerified(
      c: Codec, s: System, moves: seq<Move>, looks: nat -> seq<Move>, later: nat -> seq<Move>, m: RunManifest)
    requires Lawful(c) && SoundSystem(c, s)
    requires StoredManifest(c, s.files, m.core.runId) == Some(m) && Verifies(c, ViewOf(s.files), m)
    ensures StoredManifest(c, Interleave(c, s, moves).files, m.core.runId) == Some(m)
    ensures Verifies(c, Watching(c, s, looks, later), m)
  {
    NothingIsEverReplaced(c, s, moves);
    StaysStored(c, s.files, Interleave(c, s, moves).files, m.core.runId);
    forall i: nat
      ensures Extends(s.files, Interleave(c, s, looks(i)).files)
      ensures Extends(s.files, Interleave(c, s, later(i)).files)
    {
      NothingIsEverReplaced(c, s, looks(i));
      NothingIsEverReplaced(c, s, later(i));
    }
    StaysVerified(c, s.files, Watching(c, s, looks, later), m);
  }
}
