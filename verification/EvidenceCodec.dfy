/** The serializers of the store: canonical and indented JSON of a manifest, in UTF-8. Any
    digest function makes them a lawful codec, so what the evidence theorems assume holds of
    them. Numbers are integers here, times, costs and metrics included. */
module EvidenceCodec {
  import opened Prelude
  import opened Text
  import opened Ordering
  import opened EvidenceModel
  import Json
  import opened Utf8

  type Value = Json.Value

  // ----- Manifests as JSON values ------------------------------------------------

  function Words(s: string): Value { Json.Text(s) }

  function Maybe(o: Option<string>): Value {
    match o case None => Json.Null case Some(s) => Json.Text(s)
  }

  function MaybeTime(o: Option<int>): Value {
    match o case None => Json.Null case Some(t) => Json.Number(t)
  }

  function List<T>(xs: seq<T>, value: T -> Value): Value {
    Json.Array(seq(|xs|, i requires 0 <= i < |xs| => value(xs[i])))
  }

  /** A dictionary, its keys sorted. */
  function Dictionary<V>(m: map<string, V>, value: V -> Value): Value {
    var keys := Ascending(m.Keys);
    Json.Object(seq(|keys|, i requires 0 <= i < |keys| =>
      assert keys[i] in keys; Json.Member(keys[i], value(m[keys[i]]))))
  }

  /** A model's fields, in the order of their names. */
  function Record(fields: seq<(string, Value)>): Value {
    Json.Object(seq(|fields|, i requires 0 <= i < |fields| => Json.Member(fields[i].0, fields[i].1)))
  }

  function EntryFields(e: Entry): seq<(string, Value)> {
    [("artifact_id", Words(e.artifactId)), ("kind", Words(e.kind)), ("media_type", Words(e.mediaType)),
     ("metadata", Dictionary(e.metadata, v => Words(v))), ("object_key", Words(e.objectKey)),
     ("phase", Words(PhaseName(e.phase))), ("producer_component", Words(e.producer)),
     ("producer_version", Words(e.producerVersion)), ("sha256", Words(e.sha256)),
     ("size_bytes", Json.Number(e.sizeBytes)), ("source_uri", Words(e.sourceUri))]
  }

  function EntryValue(e: Entry): Value { Record(EntryFields(e)) }

  function ComponentFields(x: Component): seq<(string, Value)> {
    [("completed_at", MaybeTime(x.completedAt)), ("component_name", Words(x.name)),
     ("component_version", Words(x.version)), ("metadata", Json.Object([])),
     ("started_at", MaybeTime(x.startedAt)), ("status", Words(x.status))]
  }

  function ComponentValue(x: Component): Value { Record(ComponentFields(x)) }

  function ConsumedFields(x: Consumed): seq<(string, Value)> {
    [("deterministic_tool_calls", Json.Number(x.toolCalls)), ("estimated_cost", Json.Number(x.estimatedCost)),
     ("generated_tests", Json.Number(x.generatedTests)), ("input_tokens", Json.Number(x.inputTokens)),
     ("llm_calls", Json.Number(x.llmCalls)),
     ("meaningful_mutants_survived", Json.Number(x.meaningfulMutantsSurvived)),
     ("mutants_generated", Json.Number(x.mutantsGenerated)), ("output_tokens", Json.Number(x.outputTokens)),
     ("qualified_generated_tests", Json.Number(x.qualifiedGeneratedTests))]
  }

  function ConsumedValue(x: Consumed): Value { Record(ConsumedFields(x)) }

  /** The fields the recorder gives the same value in every manifest. */
  const METADATA := Record([("evidence_recorder_version", Words("0.1.0")),
                            ("manifest_semantics", Words("online-engineering-run"))])

  function CoreFields(m: ManifestCore): seq<(string, Value)> {
    [("artifacts", List(m.artifacts, EntryValue)), ("base_commit", Words(m.baseCommit)),
     ("candidate_commit", Words(m.candidateCommit)), ("candidate_tree", Maybe(m.candidateTree)),
     ("completed_at", Json.Number(m.completedAt)), ("components", List(m.components, ComponentValue)),
     ("contradictions", List(m.contradictions, Words)), ("decision_reasons", List(m.decisionReasons, Words)),
     ("evaluation_specification_version", Maybe(m.evaluationVersion)),
     ("evidence_metrics", Dictionary(m.metrics, n => Json.Number(n))),
     ("gate_decision", Words(m.gateDecision)), ("gate_version", Words(m.gateVersion)),
     ("manifest_format_version", Words("1.0.0")), ("metadata", METADATA),
     ("policy_version", Words(m.policyVersion)), ("repository_url", Words(m.repositoryUrl)),
     ("requirement_contract_version", Maybe(m.requirementVersion)),
     ("resource_consumption", ConsumedValue(m.consumed)), ("run_id", Words(m.runId)),
     ("started_at", Json.Number(m.startedAt)), ("task_package_version", Words(m.taskPackageVersion)),
     ("task_type", Words(m.taskType)), ("unmet_obligations", List(m.unmetObligations, Words))]
  }

  function CoreValue(m: ManifestCore): Value { Record(CoreFields(m)) }

  function ManifestFields(m: RunManifest): seq<(string, Value)> {
    [("core", CoreValue(m.core)), ("manifest_sha256", Words(m.manifestSha256)),
     ("published_at", Json.Number(m.publishedAt)), ("storage_format", Words("canonical-json-sha256"))]
  }

  function ManifestValue(m: RunManifest): Value { Record(ManifestFields(m)) }

  // ----- Different manifests are different values -----------------------------------

  lemma ListsDiffer<T>(xs: seq<T>, ys: seq<T>, value: T -> Value)
    requires List(xs, value) == List(ys, value)
    requires forall x, y :: x in xs && y in ys && value(x) == value(y) ==> x == y
    ensures xs == ys
  {
    var a, b := List(xs, value).items, List(ys, value).items;
    assert |xs| == |a| == |b| == |ys|;
    forall i | 0 <= i < |xs|
      ensures xs[i] == ys[i]
    {
      assert a[i] == value(xs[i]) && b[i] == value(ys[i]);
    }
  }

  lemma RecordAt(fields: seq<(string, Value)>, i: nat)
    requires i < |fields|
    ensures |Record(fields).members| == |fields| && Record(fields).members[i] == Json.Member(fields[i].0, fields[i].1)
  {}

  /** The values of two equal records are equal, field by field. */
  lemma RecordsDiffer(fields: seq<(string, Value)>, others: seq<(string, Value)>)
    requires Record(fields) == Record(others)
    ensures fields == others
  {
    var a, b := Record(fields).members, Record(others).members;
    assert |fields| == |a| == |b| == |others|;
    forall i | 0 <= i < |fields|
      ensures fields[i] == others[i]
    {
      RecordAt(fields, i);
      RecordAt(others, i);
    }
  }

  lemma DictionaryAt<V>(m: map<string, V>, value: V -> Value, i: nat)
    requires i < |m.Keys|
    ensures
      var keys := Ascending(m.Keys);
      && |Dictionary(m, value).members| == |keys| && keys[i] in m
      && Dictionary(m, value).members[i] == Json.Member(keys[i], value(m[keys[i]]))
  {
    assert Ascending(m.Keys)[i] in Ascending(m.Keys);
  }

  lemma DictionarySize<V>(m: map<string, V>, value: V -> Value)
    ensures |Dictionary(m, value).members| == |Ascending(m.Keys)|
  {}

  lemma EntryAt<V>(m: map<string, V>, n: map<string, V>, value: V -> Value, i: nat)
    requires Dictionary(m, value) == Dictionary(n, value)
    requires i < |m.Keys| && i < |n.Keys|
    ensures
      var k, l := Ascending(m.Keys)[i], Ascending(n.Keys)[i];
      k == l && k in m && k in n && value(m[k]) == value(n[k])
  {
    DictionaryAt(m, value, i);
    DictionaryAt(n, value, i);
  }

  lemma KeysDiffer<V>(m: map<string, V>, n: map<string, V>, value: V -> Value)
    requires Dictionary(m, value) == Dictionary(n, value)
    ensures Ascending(m.Keys) == Ascending(n.Keys) && m.Keys == n.Keys
  {
    DictionarySize(m, value);
    DictionarySize(n, value);
    forall i | 0 <= i < |Ascending(m.Keys)|
      ensures Ascending(m.Keys)[i] == Ascending(n.Keys)[i]
    {
      EntryAt(m, n, value, i);
    }
    SameLists(m.Keys, n.Keys);
  }

  lemma SameLists(a: set<string>, b: set<string>)
    requires |Ascending(a)| == |Ascending(b)|
    requires forall i :: 0 <= i < |Ascending(a)| ==> Ascending(a)[i] == Ascending(b)[i]
    ensures Ascending(a) == Ascending(b) && a == b
  {
    assert Ascending(a) == Ascending(b);
    assert forall x :: (x in a <==> x in Ascending(a)) && (x in b <==> x in Ascending(b));
  }

  lemma DictionariesDiffer<V>(m: map<string, V>, n: map<string, V>, value: V -> Value)
    requires Dictionary(m, value) == Dictionary(n, value)
    requires forall v, w :: value(v) == value(w) ==> v == w
    ensures m == n
  {
    KeysDiffer(m, n, value);
    var keys := Ascending(m.Keys);
    forall k | k in m
      ensures k in n && m[k] == n[k]
    {
      assert k in keys;
      var i :| 0 <= i < |keys| && keys[i] == k;
      EntryAt(m, n, value, i);
    }
  }

  lemma EntriesDiffer(x: Entry, y: Entry)
    requires EntryValue(x) == EntryValue(y)
    ensures x == y
  {
    RecordsDiffer(EntryFields(x), EntryFields(y));
    assert forall i :: 0 <= i < 11 ==> EntryFields(x)[i] == EntryFields(y)[i];
    PhaseNamesDiffer(x.phase, y.phase);
    DictionariesDiffer(x.metadata, y.metadata, v => Words(v));
  }

  lemma ComponentsDiffer(x: Component, y: Component)
    requires ComponentValue(x) == ComponentValue(y)
    ensures x == y
  {
    RecordsDiffer(ComponentFields(x), ComponentFields(y));
    assert forall i :: 0 <= i < 6 ==> ComponentFields(x)[i] == ComponentFields(y)[i];
  }

  lemma ConsumedDiffer(x: Consumed, y: Consumed)
    requires ConsumedValue(x) == ConsumedValue(y)
    ensures x == y
  {
    RecordsDiffer(ConsumedFields(x), ConsumedFields(y));
    assert forall i :: 0 <= i < 9 ==> ConsumedFields(x)[i] == ConsumedFields(y)[i];
  }

  lemma CoresDiffer(m: ManifestCore, n: ManifestCore)
    requires CoreValue(m) == CoreValue(n)
    ensures m == n
  {
    RecordsDiffer(CoreFields(m), CoreFields(n));
    assert forall i :: 0 <= i < 23 ==> CoreFields(m)[i] == CoreFields(n)[i];
    CoreListsDiffer(m, n);
    DictionariesDiffer(m.metrics, n.metrics, n => Json.Number(n));
    ConsumedDiffer(m.consumed, n.consumed);
  }

  lemma CoreListsDiffer(m: ManifestCore, n: ManifestCore)
    requires List(m.components, ComponentValue) == List(n.components, ComponentValue)
    requires List(m.artifacts, EntryValue) == List(n.artifacts, EntryValue)
    requires List(m.decisionReasons, Words) == List(n.decisionReasons, Words)
    requires List(m.unmetObligations, Words) == List(n.unmetObligations, Words)
    requires List(m.contradictions, Words) == List(n.contradictions, Words)
    ensures m.components == n.components && m.artifacts == n.artifacts
    ensures m.decisionReasons == n.decisionReasons && m.unmetObligations == n.unmetObligations
    ensures m.contradictions == n.contradictions
  {
    forall x, y | ComponentValue(x) == ComponentValue(y)
      ensures x == y
    {
      ComponentsDiffer(x, y);
    }
    ListsDiffer(m.components, n.components, ComponentValue);
    forall x, y | EntryValue(x) == EntryValue(y)
      ensures x == y
    {
      EntriesDiffer(x, y);
    }
    ListsDiffer(m.artifacts, n.artifacts, EntryValue);
    ListsDiffer(m.decisionReasons, n.decisionReasons, Words);
    ListsDiffer(m.unmetObligations, n.unmetObligations, Words);
    ListsDiffer(m.contradictions, n.contradictions, Words);
  }

  // ----- The serializers --------------------------------------------------------------

  /** `canonical_json_bytes`. */
  function Canonical(v: Value): Bytes { Encode(Json.Render(v, false, 0)) }

  /** `pretty_json_bytes`. */
  function Pretty(v: Value): Bytes { Encode(Json.Render(v, true, 0) + "\n") }

  /** Neither serializer gives two manifests the same bytes. */
  lemma SerializersAreInjective(m: RunManifest, n: RunManifest)
    requires Canonical(ManifestValue(m)) == Canonical(ManifestValue(n)) || Pretty(ManifestValue(m)) == Pretty(ManifestValue(n))
    ensures m == n
  {
    if Canonical(ManifestValue(m)) == Canonical(ManifestValue(n)) {
      EncodeIsInjective(Json.Render(ManifestValue(m), false, 0), Json.Render(ManifestValue(n), false, 0));
      Json.RenderIsInjective(ManifestValue(m), ManifestValue(n), false);
    } else {
      EncodeIsInjective(Json.Render(ManifestValue(m), true, 0) + "\n", Json.Render(ManifestValue(n), true, 0) + "\n");
      Json.RenderEnds(ManifestValue(m), ManifestValue(n), true, 0, "\n", "\n");
    }
    RecordsDiffer(ManifestFields(m), ManifestFields(n));
    assert forall i :: 0 <= i < 4 ==> ManifestFields(m)[i] == ManifestFields(n)[i];
    CoresDiffer(m.core, n.core);
  }

  /** The digest is taken of different bytes for different cores, too. */
  lemma CoreBytesDiffer(m: ManifestCore, n: ManifestCore)
    requires Canonical(CoreValue(m)) == Canonical(CoreValue(n))
    ensures m == n
  {
    EncodeIsInjective(Json.Render(CoreValue(m), false, 0), Json.Render(CoreValue(n), false, 0));
    Json.RenderIsInjective(CoreValue(m), CoreValue(n), false);
    CoresDiffer(m, n);
  }

  /** The manifest whose indented text this is, if there is one. */
  ghost function Parse(b: Bytes): (r: Option<RunManifest>)
    ensures r.Some? ==> Pretty(ManifestValue(r.value)) == b
    ensures r.None? ==> forall m: RunManifest :: Pretty(ManifestValue(m)) != b
  {
    if m: RunManifest :| Pretty(ManifestValue(m)) == b then Some(m) else None
  }

  /** The store's codec for a digest function. */
  ghost function StoreCodec(sha256: Bytes -> string): Codec {
    Codec(sha256, core => Canonical(CoreValue(core)), m => Canonical(ManifestValue(m)), m => Pretty(ManifestValue(m)), Parse)
  }

  /** With these serializers everything the evidence theorems assume holds, whatever the
      digest function, as long as its values are digests. */
  lemma SerializersAreLawful(sha256: Bytes -> string)
    requires forall b: Bytes :: LegalDigest(sha256(b))
    ensures Lawful(StoreCodec(sha256))
  {
    var c := StoreCodec(sha256);
    forall m: RunManifest
      ensures c.parse(c.pretty(m)) == Some(m)
    {
      assert Parse(Pretty(ManifestValue(m))).Some?;
      SerializersAreInjective(Parse(Pretty(ManifestValue(m))).value, m);
    }
    forall m: RunManifest, n: RunManifest | c.canonical(m) == c.canonical(n)
      ensures m == n
    {
      SerializersAreInjective(m, n);
    }
  }

  /** The recorded digest identifies what it was taken of: two manifests with one digest have
      one core, or the digest function gave two texts the same digest. */
  lemma DigestIdentifiesCore(sha256: Bytes -> string, m: RunManifest, n: RunManifest)
    requires IdentityValid(StoreCodec(sha256), m) && IdentityValid(StoreCodec(sha256), n)
    requires m.manifestSha256 == n.manifestSha256
    ensures
      var a, b := Canonical(CoreValue(m.core)), Canonical(CoreValue(n.core));
      m.core == n.core || (a != b && sha256(a) == sha256(b))
  {
    if Canonical(CoreValue(m.core)) == Canonical(CoreValue(n.core)) { CoreBytesDiffer(m.core, n.core); }
  }
}
