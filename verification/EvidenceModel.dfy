/** Manifests, stored files, and the library functions over them.

    Hashing, canonical JSON and JSON parsing are parameters: a `Codec` is any
    such functions, and `Lawful` is what the theorems assume of them. */
module EvidenceModel {
  import opened Prelude
  import opened Text

  type Byte = b: int | 0 <= b < 256
  type Bytes = seq<Byte>

  datatype Phase = TaskInput | ChangeExecution | ReleaseGate

  function PhaseName(p: Phase): string {
    match p
    case TaskInput => "task_input"
    case ChangeExecution => "change_execution"
    case ReleaseGate => "release_gate"
  }

  lemma PhaseNamesDiffer(a: Phase, b: Phase)
    requires PhaseName(a) == PhaseName(b)
    ensures a == b
  {
    assert PhaseName(a)[0] == PhaseName(b)[0];
  }

  datatype Entry = Entry(
    artifactId: string,
    kind: string,
    phase: Phase,
    sha256: string,
    sizeBytes: nat,
    mediaType: string,
    objectKey: string,
    sourceUri: string,
    producer: string,
    producerVersion: string,
    metadata: map<string, string>)

  datatype Component = Component(
    name: string, version: string, startedAt: Option<int>, completedAt: Option<int>, status: string)

  /** The cost is counted in a smallest unit, as the metrics are. */
  datatype Consumed = Consumed(
    llmCalls: nat, inputTokens: nat, outputTokens: nat, estimatedCost: nat, toolCalls: nat,
    generatedTests: nat, qualifiedGeneratedTests: nat, mutantsGenerated: nat, meaningfulMutantsSurvived: nat)

  datatype ManifestCore = ManifestCore(
    runId: string,
    taskType: string,
    taskPackageVersion: string,
    repositoryUrl: string,
    baseCommit: string,
    candidateCommit: string,
    candidateTree: Option<string>,
    gateDecision: string,
    gateVersion: string,
    policyVersion: string,
    requirementVersion: Option<string>,
    evaluationVersion: Option<string>,
    components: seq<Component>,
    artifacts: seq<Entry>,
    metrics: map<string, int>,
    decisionReasons: seq<string>,
    unmetObligations: seq<string>,
    contradictions: seq<string>,
    consumed: Consumed,
    startedAt: int,
    completedAt: int)

  datatype RunManifest = RunManifest(core: ManifestCore, manifestSha256: string, publishedAt: int)

  datatype Codec = Codec(
    sha256: Bytes -> string,
    canonicalCore: ManifestCore -> Bytes,
    canonical: RunManifest -> Bytes,
    pretty: RunManifest -> Bytes,
    parse: Bytes -> Option<RunManifest>)

  ghost predicate Lawful(c: Codec) {
    && (forall b: Bytes :: LegalDigest(c.sha256(b)))
    && (forall m: RunManifest :: c.parse(c.pretty(m)) == Some(m))
    && (forall m: RunManifest, n: RunManifest :: c.canonical(m) == c.canonical(n) ==> m == n)
  }

  /** The recorded digest is the digest of the canonical core. */
  predicate IdentityValid(c: Codec, m: RunManifest) {
    c.sha256(c.canonicalCore(m.core)) == m.manifestSha256
  }

  /** The directory tree of a store: objects by digest, manifests by run id. */
  datatype Files = Files(objects: map<string, Bytes>, manifests: map<string, Bytes>)

  const EMPTY_STORE := Files(map[], map[])

  /** `b` has everything `a` has, unchanged. */
  ghost predicate Extends(a: Files, b: Files) {
    && (forall k :: k in a.objects ==> k in b.objects && b.objects[k] == a.objects[k])
    && (forall k :: k in a.manifests ==> k in b.manifests && b.manifests[k] == a.manifests[k])
  }

  lemma ExtendsTransitive(a: Files, b: Files, c: Files)
    requires Extends(a, b) && Extends(b, c)
    ensures Extends(a, c)
  {}

  /** Reads, parses and checks the manifest stored for a run: `get_manifest`. */
  function StoredManifest(c: Codec, files: Files, runId: string): Option<RunManifest> {
    if runId !in files.manifests then None
    else
      match c.parse(files.manifests[runId])
      case None => None
      case Some(m) => if IdentityValid(c, m) then Some(m) else None
  }

  /** Every object hashes to the name it is stored under, and every manifest is
      readable, self-consistent, and stored under its own run id. */
  ghost predicate SoundStore(c: Codec, files: Files) {
    && (forall k :: k in files.objects ==> c.sha256(files.objects[k]) == k)
    && (forall id :: id in files.manifests ==> SoundManifest(c, files, id))
  }

  predicate SoundManifest(c: Codec, files: Files, id: string) {
    var m := StoredManifest(c, files, id);
    m.Some? && m.value.core.runId == id
  }
}
