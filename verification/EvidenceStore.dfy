/** The local content-addressed store as one process uses it. Between any two of its steps
    other processes may use the same directory, and any step may fail with an I/O error:
    `env(n)` says what happens before the n-th step. */
module EvidenceStore {
  import opened Prelude
  import opened Text
  import opened EvidenceKeys
  import opened EvidenceModel
  import opened StoreProtocol

  class LocalEvidenceStore {
    const codec: Codec
    const verifyAfterWrite: bool
    const env: nat -> Disturbance
    var files: Files
    var others: seq<Writer>
    var steps: nat

    ghost predicate Valid()
      reads this
    {
      Lawful(codec) && SoundSystem(codec, State())
    }

    /** The directory, and the calls of the other processes. */
    function State(): System
      reads this
    {
      System(files, others)
    }

    constructor (codec: Codec, verifyAfterWrite: bool, env: nat -> Disturbance)
      ensures this.codec == codec && this.verifyAfterWrite == verifyAfterWrite && this.env == env
      ensures State() == FRESH && steps == 0
    {
      this.codec := codec;
      this.verifyAfterWrite := verifyAfterWrite;
      this.env := env;
      files := EMPTY_STORE;
      others := [];
      steps := 0;
    }

    /** What happens before the next step. */
    method Proceed() returns (fails: bool)
      modifies this
      ensures steps == old(steps) + 1 && fails == At(env, old(steps)).fails
      ensures State() == Interleave(codec, old(State()), At(env, old(steps)).moves)
    {
      var next := Interleave(codec, State(), At(env, steps).moves);
      fails := At(env, steps).fails;
      files, others, steps := next.files, next.writers, steps + 1;
    }

    /** Exclusive creation: an existing file is left as it is. */
    method AtomicCreateObject(digest: string, content: Bytes)
      modifies this`files
      ensures files == old(files).(objects :=
        if digest in old(files.objects) then old(files.objects) else old(files.objects)[digest := content])
    {
      if digest !in files.objects {
        files := files.(objects := files.objects[digest := content]);
      }
    }

    method AtomicCreateManifest(id: string, content: Bytes)
      modifies this`files
      ensures files == old(files).(manifests :=
        if id in old(files.manifests) then old(files.manifests) else old(files.manifests)[id := content])
    {
      if id !in files.manifests {
        files := files.(manifests := files.manifests[id := content]);
      }
    }

    /** Reads back what is stored under a digest. */
    method CheckObject(digest: string) returns (reply: Reply)
      modifies this
      ensures steps == old(steps) + 1
      ensures State() == Interleave(codec, old(State()), At(env, old(steps)).moves)
      ensures reply == if At(env, old(steps)).fails then Err(IoError) else ReadObject(codec, files, digest)
    {
      var fails := Proceed();
      if fails || digest !in files.objects { return Err(IoError); }
      if codec.sha256(files.objects[digest]) != digest { return Err(IntegrityError); }
      reply := Ok(ObjectKey(digest));
    }

    /** Does what the writer protocol does amid the other processes. */
    method PutObject(content: Bytes, expected: Option<string>) returns (reply: Reply)
      modifies this
      ensures (State(), reply, steps) ==
        CallAmid(codec, old(State()), verifyAfterWrite, Call.PutObject(content, expected), env, old(steps))
    {
      ThreeDisturbedSteps(codec, State(), Writer(Call.PutObject(content, expected), verifyAfterWrite, Checking, NotLinked),
                          env, steps);
      var digest := codec.sha256(content);
      var fails := Proceed();
      if fails { return Err(IoError); }
      if expected.Some? && digest != Lower(expected.value) {
        return Err(IntegrityError);
      }
      if digest in files.objects {
        reply := CheckObject(digest);
        return;
      }
      fails := Proceed();
      if fails { return Err(IoError); }
      AtomicCreateObject(digest, content);
      if verifyAfterWrite {
        reply := CheckObject(digest);
        return;
      }
      reply := Ok(ObjectKey(digest));
    }

    method PublishManifest(m: RunManifest) returns (reply: Reply)
      modifies this
      ensures (State(), reply, steps) ==
        CallAmid(codec, old(State()), verifyAfterWrite, Call.PublishManifest(m), env, old(steps))
    {
      ThreeDisturbedSteps(codec, State(), Writer(Call.PublishManifest(m), verifyAfterWrite, Checking, NotLinked),
                          env, steps);
      var fails := Proceed();
      if fails { return Err(IoError); }
      if !IdentityValid(codec, m) {
        return Err(IntegrityError);
      }
      var id := m.core.runId;
      if !SafeRunId(id) {
        return Err(StoreError.UnsafeRunId);
      }
      if id in files.manifests {
        fails := Proceed();
        if fails { return Err(IoError); }
        var existing := StoredManifest(codec, files, id);
        if existing.None? {
          return Err(IntegrityError);
        }
        if codec.canonical(existing.value) != codec.canonical(m) {
          return Err(ManifestAlreadyExists);
        }
        return Ok(id);
      }
      fails := Proceed();
      if fails { return Err(IoError); }
      AtomicCreateManifest(id, codec.pretty(m));
      if verifyAfterWrite {
        fails := Proceed();
        if fails { return Err(IoError); }
        var loaded := StoredManifest(codec, files, id);
        if loaded.None? || codec.canonical(loaded.value) != codec.canonical(m) {
          return Err(IntegrityError);
        }
      }
      reply := Ok(id);
    }
  }
}
