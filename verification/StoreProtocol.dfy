/** Concurrent writers of one evidence store.

    A call is split where it touches the disk: the existence check, the read of
    an existing file, the exclusive hard link, and the read-back.  `Act` performs
    the next such step of one writer; a list of moves is an arbitrary
    interleaving of arbitrarily many writers, any of which may stop with an I/O
    error between two steps. */
module StoreProtocol {
  import opened Prelude
  import opened Text
  import opened EvidenceKeys
  import opened EvidenceModel

  datatype Call = PutObject(content: Bytes, expected: Option<string>) | PublishManifest(manifest: RunManifest)

  /** `IoError` is a failure of the file system, in whatever exception it is wrapped. */
  datatype StoreError = IntegrityError | UnsafeRunId | ManifestAlreadyExists | IoError

  type Reply = Result<string, StoreError>

  datatype Stage = Checking | Reading | Linking | ReadingBack | Finished(reply: Reply)

  datatype Link = NotLinked | LinkWon | LinkLost

  datatype Writer = Writer(call: Call, verify: bool, stage: Stage, link: Link)

  function Finish(w: Writer, reply: Reply): Writer { w.(stage := Finished(reply)) }

  function Raise(w: Writer, e: StoreError): Writer { Finish(w, Err(e)) }

  /** Reads an object and compares its digest with its name. */
  function ReadObject(c: Codec, files: Files, digest: string): Reply {
    if digest !in files.objects then Err(IoError)
    else if c.sha256(files.objects[digest]) != digest then Err(IntegrityError)
    else Ok(ObjectKey(digest))
  }

  // ----- One step of one writer ---------------------------------------------

  function ActPut(c: Codec, files: Files, w: Writer): (Files, Writer)
    requires w.call.PutObject? && !w.stage.Finished?
  {
    var digest := c.sha256(w.call.content);
    var key := ObjectKey(digest);
    match w.stage
    case Checking =>
      if w.call.expected.Some? && digest != Lower(w.call.expected.value) then (files, Raise(w, IntegrityError))
      else if digest in files.objects then (files, w.(stage := Reading))
      else (files, w.(stage := Linking))
    case Reading =>
      (files, Finish(w, ReadObject(c, files, digest)))
    case Linking =>
      var next := if w.verify then ReadingBack else Finished(Ok(key));
      if digest in files.objects then (files, w.(stage := next, link := LinkLost))
      else (files.(objects := files.objects[digest := w.call.content]), w.(stage := next, link := LinkWon))
    case ReadingBack =>
      (files, Finish(w, ReadObject(c, files, digest)))
  }

  function ActPublish(c: Codec, files: Files, w: Writer): (Files, Writer)
    requires w.call.PublishManifest? && !w.stage.Finished?
  {
    var m := w.call.manifest;
    var id := m.core.runId;
    match w.stage
    case Checking =>
      if !IdentityValid(c, m) then (files, Raise(w, IntegrityError))
      else if !SafeRunId(id) then (files, Raise(w, UnsafeRunId))
      else if id in files.manifests then (files, w.(stage := Reading))
      else (files, w.(stage := Linking))
    case Reading =>
      var existing := StoredManifest(c, files, id);
      if existing.None? then (files, Raise(w, IntegrityError))
      else if c.canonical(existing.value) != c.canonical(m) then (files, Raise(w, ManifestAlreadyExists))
      else (files, Finish(w, Ok(id)))
    case Linking =>
      var next := if w.verify then ReadingBack else Finished(Ok(id));
      if id in files.manifests then (files, w.(stage := next, link := LinkLost))
      else (files.(manifests := files.manifests[id := c.pretty(m)]), w.(stage := next, link := LinkWon))
    case ReadingBack =>
      var loaded := StoredManifest(c, files, id);
      if loaded.None? then (files, Raise(w, IntegrityError))
      else if c.canonical(loaded.value) != c.canonical(m) then (files, Raise(w, IntegrityError))
      else (files, Finish(w, Ok(id)))
  }

  function Act(c: Codec, files: Files, w: Writer): (Files, Writer) {
    if w.stage.Finished? then (files, w)
    else if w.call.PutObject? then ActPut(c, files, w)
    else ActPublish(c, files, w)
  }

  // ----- Interleavings ------------------------------------------------------

  datatype System = System(files: Files, writers: seq<Writer>)

  datatype Move =
    | Begin(call: Call, verify: bool)
    | Step(writer: nat)
    | Abort(writer: nat)

  function Perform(c: Codec, s: System, move: Move): System {
    match move
    case Begin(call, verify) => s.(writers := s.writers + [Writer(call, verify, Checking, NotLinked)])
    case Step(i) =>
      if i < |s.writers| then
        var (files, w) := Act(c, s.files, s.writers[i]);
        System(files, s.writers[i := w])
      else s
    case Abort(i) =>
      if i < |s.writers| && !s.writers[i].stage.Finished?
      then s.(writers := s.writers[i := Raise(s.writers[i], IoError)])
      else s
  }

  function Interleave(c: Codec, s: System, moves: seq<Move>): System
    decreases |moves|
  {
    if moves == [] then s else Interleave(c, Perform(c, s, moves[0]), moves[1..])
  }

  // ----- What every writer may rely on --------------------------------------

  predicate Accepted(c: Codec, w: Writer) {
    match w.call
    case PutObject(content, expected) =>
      expected.Some? ==> c.sha256(content) == Lower(expected.value)
    case PublishManifest(m) => IdentityValid(c, m) && SafeRunId(m.core.runId)
  }

  /** The file a writer's call is about exists. */
  predicate Present(c: Codec, files: Files, call: Call) {
    match call
    case PutObject(content, _) => c.sha256(content) in files.objects
    case PublishManifest(m) => m.core.runId in files.manifests
  }

  /** A successful return that was not an unverified loss of the link race. */
  predicate Settled(w: Writer) {
    w.stage.Finished? && w.stage.reply.Ok? && !(w.link == LinkLost && !w.verify)
  }

  predicate WriterSound(c: Codec, files: Files, w: Writer) {
    && (w.stage.Checking? ==> w.link.NotLinked?)
    && (w.stage.Reading? || w.stage.Linking? || w.stage.ReadingBack? ==> Accepted(c, w))
    && (w.stage.Reading? || w.stage.ReadingBack? ==> Present(c, files, w.call))
    && (w.stage.ReadingBack? ==> w.verify)
    && (w.link != NotLinked ==> Present(c, files, w.call))
    && (w.link == LinkWon && w.call.PublishManifest? ==>
        StoredManifest(c, files, w.call.manifest.core.runId) == Some(w.call.manifest))
    && (w.stage.Finished? ==> OutcomeSound(c, files, w))
  }

  /** What a finished call tells its caller about the store. */
  predicate OutcomeSound(c: Codec, files: Files, w: Writer)
    requires w.stage.Finished?
  {
    match (w.call, w.stage.reply)
    case (PutObject(content, _), Ok(key)) =>
      Accepted(c, w) && Present(c, files, w.call) && key == ObjectKey(c.sha256(content))
    case (PutObject(content, _), Err(e)) => e == IoError || !Accepted(c, w)
    case (PublishManifest(m), Ok(id)) =>
      && Accepted(c, w) && Present(c, files, w.call) && id == m.core.runId
      && (Settled(w) ==> StoredManifest(c, files, id) == Some(m))
    case (PublishManifest(m), Err(e)) =>
      || e == IoError || !Accepted(c, w)
      || (m.core.runId in files.manifests && StoredManifest(c, files, m.core.runId) != Some(m))
  }

  ghost predicate SoundSystem(c: Codec, s: System) {
    && SoundStore(c, s.files)
    && forall i :: 0 <= i < |s.writers| ==> WriterSound(c, s.files, s.writers[i])
  }

  // ----- Preservation -------------------------------------------------------

  lemma ActPutIsSound(c: Codec, files: Files, w: Writer)
    requires Lawful(c) && SoundStore(c, files) && WriterSound(c, files, w)
    requires w.call.PutObject? && !w.stage.Finished?
    ensures var (files', w') := ActPut(c, files, w);
      Extends(files, files') && SoundStore(c, files') && WriterSound(c, files', w')
  {
    var (files', w') := ActPut(c, files, w);
    forall id | id in files'.manifests
      ensures SoundManifest(c, files', id)
    {
      assert SoundManifest(c, files, id);
    }
  }

  lemma ActPublishIsSound(c: Codec, files: Files, w: Writer)
    requires Lawful(c) && SoundStore(c, files) && WriterSound(c, files, w)
    requires w.call.PublishManifest? && !w.stage.Finished?
    ensures var (files', w') := ActPublish(c, files, w);
      Extends(files, files') && SoundStore(c, files') && WriterSound(c, files', w')
  {
    var m := w.call.manifest;
    if w.stage.Linking? {
      if m.core.runId !in files.manifests { NewManifestIsSound(c, files, m); }
    } else {
      PublishReadIsSound(c, files, w);
    }
  }

  /** The steps of a publish that only look. */
  lemma PublishReadIsSound(c: Codec, files: Files, w: Writer)
    requires Lawful(c) && SoundStore(c, files) && WriterSound(c, files, w)
    requires w.call.PublishManifest? && !w.stage.Finished? && !w.stage.Linking?
    ensures ActPublish(c, files, w).0 == files && WriterSound(c, files, ActPublish(c, files, w).1)
  {}

  lemma NewManifestIsSound(c: Codec, files: Files, m: RunManifest)
    requires Lawful(c) && SoundStore(c, files)
    requires IdentityValid(c, m) && m.core.runId !in files.manifests
    ensures var files' := files.(manifests := files.manifests[m.core.runId := c.pretty(m)]);
      && SoundStore(c, files') && Extends(files, files')
      && StoredManifest(c, files', m.core.runId) == Some(m)
  {
    var files' := files.(manifests := files.manifests[m.core.runId := c.pretty(m)]);
    assert c.parse(c.pretty(m)) == Some(m);
    forall k | k in files'.manifests
      ensures SoundManifest(c, files', k)
    {
      if k != m.core.runId { assert SoundManifest(c, files, k); }
    }
  }

  /** Nothing another writer does can undo what a writer relies on. */
  lemma SoundnessIsStable(c: Codec, files: Files, files': Files, w: Writer)
    requires Extends(files, files') && SoundStore(c, files) && WriterSound(c, files, w)
    ensures WriterSound(c, files', w)
  {
    if w.call.PublishManifest? {
      var id := w.call.manifest.core.runId;
      if id in files.manifests {
        assert StoredManifest(c, files', id) == StoredManifest(c, files, id);
      }
    }
  }

  lemma PerformIsSound(c: Codec, s: System, move: Move)
    requires Lawful(c) && SoundSystem(c, s)
    ensures SoundSystem(c, Perform(c, s, move)) && Extends(s.files, Perform(c, s, move).files)
  {
    var s' := Perform(c, s, move);
    match move {
      case Begin(call, verify) =>
      case Abort(i) =>
      case Step(i) =>
        if i < |s.writers| && !s.writers[i].stage.Finished? {
          if s.writers[i].call.PutObject? {
            ActPutIsSound(c, s.files, s.writers[i]);
          } else {
            ActPublishIsSound(c, s.files, s.writers[i]);
          }
          forall j | 0 <= j < |s'.writers|
            ensures WriterSound(c, s'.files, s'.writers[j])
          {
            if j != i { SoundnessIsStable(c, s.files, s'.files, s.writers[j]); }
          }
        }
    }
  }

  // ----- Theorems -----------------------------------------------------------

  /** Every interleaving keeps the store sound and replaces nothing. */
  lemma {:induction false} NothingIsEverReplaced(c: Codec, s: System, moves: seq<Move>)
    requires Lawful(c) && SoundSystem(c, s)
    ensures SoundSystem(c, Interleave(c, s, moves))
    ensures Extends(s.files, Interleave(c, s, moves).files)
    decreases |moves|
  {
    if moves != [] {
      var next := Perform(c, s, moves[0]);
      PerformIsSound(c, s, moves[0]);
      NothingIsEverReplaced(c, next, moves[1..]);
      ExtendsTransitive(s.files, next.files, Interleave(c, next, moves[1..]).files);
    }
  }

  /** A store nobody has used yet. */
  const FRESH := System(EMPTY_STORE, [])

  /** From a fresh store, whatever the interleaving: a returned put left bytes of
      that digest under the returned key, and a returned publish whose read-back
      was on (or that did not lose the link race) equals the stored manifest. */
  lemma ReturnedCallsTellTheTruth(c: Codec, moves: seq<Move>, i: nat)
    requires Lawful(c)
    requires var s := Interleave(c, FRESH, moves); i < |s.writers| && s.writers[i].stage.Finished?
    ensures
      var s := Interleave(c, FRESH, moves);
      var w := s.writers[i];
      match (w.call, w.stage.reply)
      case (PutObject(content, _), Ok(key)) =>
        && var digest := c.sha256(content);
        && ResolveObjectKey(key) == Some(digest) && digest in s.files.objects
        && c.sha256(s.files.objects[digest]) == digest
      case (PutObject(content, expected), Err(e)) =>
        e == IoError || (expected.Some? && Lower(expected.value) != c.sha256(content))
      case (PublishManifest(m), Ok(id)) =>
        && id == m.core.runId && c.sha256(c.canonicalCore(m.core)) == m.manifestSha256
        && id !in {"", ".", ".."} && '/' !in id && '\\' !in id && '\0' !in id
        && StoredManifest(c, s.files, id).Some?
        && (w.verify || w.link != LinkLost ==> StoredManifest(c, s.files, id) == Some(m))
      case (PublishManifest(m), Err(e)) =>
        || e == IoError || c.sha256(c.canonicalCore(m.core)) != m.manifestSha256
        || m.core.runId in {"", ".", ".."} || '/' in m.core.runId || '\\' in m.core.runId || '\0' in m.core.runId
        || (m.core.runId in s.files.manifests && StoredManifest(c, s.files, m.core.runId) != Some(m))
  {
    NothingIsEverReplaced(c, FRESH, moves);
    var s := Interleave(c, FRESH, moves);
    var w := s.writers[i];
    assert WriterSound(c, s.files, w);
    match w.call {
      case PutObject(content, _) => IssuedKeysResolve(c.sha256(content));
      case PublishManifest(m) =>
        if m.core.runId in s.files.manifests { assert SoundManifest(c, s.files, m.core.runId); }
    }
  }

  /** Two verified publishers of one run can only both return if they published
      the same manifest, publication time included. */
  lemma PublishedOnce(c: Codec, moves: seq<Move>, i: nat, j: nat)
    requires Lawful(c)
    requires var s := Interleave(c, FRESH, moves);
      && i < |s.writers| && j < |s.writers|
      && s.writers[i].call.PublishManifest? && s.writers[j].call.PublishManifest?
      && Settled(s.writers[i]) && Settled(s.writers[j])
      && s.writers[i].call.manifest.core.runId == s.writers[j].call.manifest.core.runId
    ensures var s := Interleave(c, FRESH, moves);
      s.writers[i].call.manifest == s.writers[j].call.manifest
  {
    ReturnedCallsTellTheTruth(c, moves, i);
    ReturnedCallsTellTheTruth(c, moves, j);
  }

  /** With the read-back off, a writer that loses the link race is told it
      published although another manifest is stored. */
  lemma UnverifiedLoserIsMisled(c: Codec, winner: RunManifest, loser: RunManifest) returns (moves: seq<Move>)
    requires Lawful(c) && winner != loser && winner.core.runId == loser.core.runId
    requires IdentityValid(c, winner) && IdentityValid(c, loser) && SafeRunId(winner.core.runId)
    ensures
      var s := Interleave(c, FRESH, moves);
      && |s.writers| == 2 && s.writers[1].call == PublishManifest(loser)
      && s.writers[1].stage == Finished(Ok(loser.core.runId))
      && StoredManifest(c, s.files, loser.core.runId) == Some(winner)
  {
    moves := [Begin(PublishManifest(winner), false), Begin(PublishManifest(loser), false),
              Step(0), Step(1), Step(0), Step(1)];
    var w0, w1 := Writer(PublishManifest(winner), false, Checking, NotLinked),
                  Writer(PublishManifest(loser), false, Checking, NotLinked);
    var id := winner.core.runId;
    var files := EMPTY_STORE.(manifests := map[id := c.pretty(winner)]);
    var s1 := System(EMPTY_STORE, [w0]);
    var s2 := System(EMPTY_STORE, [w0, w1]);
    var s3 := System(EMPTY_STORE, [w0.(stage := Linking), w1]);
    var s4 := System(EMPTY_STORE, [w0.(stage := Linking), w1.(stage := Linking)]);
    var s5 := System(files, [w0.(stage := Finished(Ok(id)), link := LinkWon), w1.(stage := Linking)]);
    var s6 := System(files, [s5.writers[0], w1.(stage := Finished(Ok(id)), link := LinkLost)]);
    assert Perform(c, FRESH, moves[0]) == s1;
    assert Perform(c, s1, moves[1]) == s2;
    assert Perform(c, s2, moves[2]) == s3;
    assert Perform(c, s3, moves[3]) == s4;
    assert Perform(c, s4, moves[4]) == s5;
    assert Perform(c, s5, moves[5]) == s6;
    UnrollSix(c, FRESH, moves, s1, s2, s3, s4, s5, s6);
    assert c.parse(c.pretty(winner)) == Some(winner);
  }

  lemma UnrollSix(c: Codec, s0: System, moves: seq<Move>,
                  s1: System, s2: System, s3: System, s4: System, s5: System, s6: System)
    requires |moves| == 6
    requires Perform(c, s0, moves[0]) == s1 && Perform(c, s1, moves[1]) == s2
    requires Perform(c, s2, moves[2]) == s3 && Perform(c, s3, moves[3]) == s4
    requires Perform(c, s4, moves[4]) == s5 && Perform(c, s5, moves[5]) == s6
    ensures Interleave(c, s0, moves) == s6
  {
    var m1, m2, m3, m4, m5 := moves[1..], moves[2..], moves[3..], moves[4..], moves[5..];
    assert m1[1..] == m2 && m2[1..] == m3 && m3[1..] == m4 && m4[1..] == m5 && m5[1..] == [];
    assert Interleave(c, s5, m5) == s6;
    assert Interleave(c, s4, m4) == s6;
    assert Interleave(c, s3, m3) == s6;
    assert Interleave(c, s2, m2) == s6;
    assert Interleave(c, s1, m1) == s6;
  }

  // ----- A call that nobody disturbs ----------------------------------------

  function Rank(stage: Stage): nat {
    match stage case Checking => 3 case Linking => 2 case Reading => 1 case ReadingBack => 1 case Finished(_) => 0
  }

  /** The steps of one writer, taken in a row until its call returns. */
  function RunToEnd(c: Codec, files: Files, w: Writer): (r: (Files, Writer))
    ensures r.1.stage.Finished? && r.1.call == w.call && r.1.verify == w.verify
    decreases Rank(w.stage)
  {
    if w.stage.Finished? then (files, w)
    else
      var (files', w') := Act(c, files, w);
      RunToEnd(c, files', w')
  }

  function CallAlone(c: Codec, files: Files, verify: bool, call: Call): (Files, Reply) {
    var (files', w) := RunToEnd(c, files, Writer(call, verify, Checking, NotLinked));
    (files', w.stage.reply)
  }

  /** No call takes more than three steps. */
  lemma ThreeSteps(c: Codec, files: Files, w: Writer)
    ensures
      var (f1, w1) := Act(c, files, w);
      var (f2, w2) := Act(c, f1, w1);
      RunToEnd(c, files, w) == Act(c, f2, w2)
  {
    var (f1, w1) := Act(c, files, w);
    var (f2, w2) := Act(c, f1, w1);
    assert RunToEnd(c, files, w) == RunToEnd(c, f1, w1);
    assert RunToEnd(c, f1, w1) == RunToEnd(c, f2, w2);
    assert RunToEnd(c, f2, w2) == Act(c, f2, w2);
  }

  // ----- A call that others disturb ------------------------------------------

  /** What happens just before a step: other writers move, and the step itself may fail. */
  datatype Disturbance = Disturbance(moves: seq<Move>, fails: bool)

  const CALM := Disturbance([], false)

  function At(env: nat -> Disturbance, n: nat): Disturbance { env(n) }

  /** One disturbed step of a writer that is not among those of the system. */
  function Next(c: Codec, s: System, w: Writer, d: Disturbance): (r: (System, Writer))
    requires !w.stage.Finished?
    ensures Rank(r.1.stage) < Rank(w.stage) && r.1.call == w.call && r.1.verify == w.verify
  {
    var others := Interleave(c, s, d.moves);
    if d.fails then (others, Raise(w, IoError))
    else
      var (files, next) := Act(c, others.files, w);
      (System(files, others.writers), next)
  }

  /** The steps of one writer, the n-th step of all being preceded by `env(n)`. */
  function RunAmid(c: Codec, s: System, w: Writer, env: nat -> Disturbance, n: nat): (r: (System, Writer, nat))
    ensures r.1.stage.Finished? && r.1.call == w.call && r.1.verify == w.verify
    ensures n <= r.2 <= n + Rank(w.stage)
    decreases Rank(w.stage)
  {
    if w.stage.Finished? then (s, w, n)
    else
      var (s', next) := Next(c, s, w, At(env, n));
      RunAmid(c, s', next, env, n + 1)
  }

  /** No call takes more than three steps. */
  lemma ThreeDisturbedSteps(c: Codec, s: System, w: Writer, env: nat -> Disturbance, n: nat)
    requires w.stage.Checking?
    ensures
      var (s1, w1) := Next(c, s, w, At(env, n));
      RunAmid(c, s, w, env, n) ==
        if w1.stage.Finished? then (s1, w1, n + 1)
        else
          var (s2, w2) := Next(c, s1, w1, At(env, n + 1));
          if w2.stage.Finished? then (s2, w2, n + 2)
          else
            var (s3, w3) := Next(c, s2, w2, At(env, n + 2));
            (s3, w3, n + 3)
  {
    var (s1, w1) := Next(c, s, w, At(env, n));
    if !w1.stage.Finished? {
      var (s2, w2) := Next(c, s1, w1, At(env, n + 1));
      assert RunAmid(c, s1, w1, env, n + 1) == RunAmid(c, s2, w2, env, n + 2);
      if !w2.stage.Finished? {
        var (s3, w3) := Next(c, s2, w2, At(env, n + 2));
        assert RunAmid(c, s2, w2, env, n + 2) == (s3, w3, n + 3);
      }
    }
  }

  /** When nobody moves and nothing fails, a call does what it does alone. */
  lemma {:induction false} AmidNobody(c: Codec, s: System, w: Writer, env: nat -> Disturbance, n: nat)
    requires forall i: nat :: n <= i < n + Rank(w.stage) ==> At(env, i) == CALM
    ensures
      var (files, last) := RunToEnd(c, s.files, w);
      RunAmid(c, s, w, env, n).0 == System(files, s.writers) && RunAmid(c, s, w, env, n).1 == last
    decreases Rank(w.stage)
  {
    if !w.stage.Finished? {
      assert At(env, n) == CALM && Interleave(c, s, At(env, n).moves) == s;
      var (s', next) := Next(c, s, w, At(env, n));
      AmidNobody(c, s', next, env, n + 1);
    }
  }

  function CallAmid(c: Codec, s: System, verify: bool, call: Call, env: nat -> Disturbance, n: nat)
    : (System, Reply, nat)
  {
    var (s', w, m) := RunAmid(c, s, Writer(call, verify, Checking, NotLinked), env, n);
    (s', w.stage.reply, m)
  }

  lemma {:induction false} RunAmidIsSound(c: Codec, s: System, w: Writer, env: nat -> Disturbance, n: nat)
    requires Lawful(c) && SoundSystem(c, s) && WriterSound(c, s.files, w)
    ensures var (s', w', m) := RunAmid(c, s, w, env, n);
      Extends(s.files, s'.files) && SoundSystem(c, s') && WriterSound(c, s'.files, w')
    decreases Rank(w.stage)
  {
    if !w.stage.Finished? {
      var (s', next) := Next(c, s, w, At(env, n));
      NextIsSound(c, s, w, At(env, n));
      RunAmidIsSound(c, s', next, env, n + 1);
      ExtendsTransitive(s.files, s'.files, RunAmid(c, s', next, env, n + 1).0.files);
    }
  }

  lemma NextIsSound(c: Codec, s: System, w: Writer, d: Disturbance)
    requires Lawful(c) && SoundSystem(c, s) && WriterSound(c, s.files, w) && !w.stage.Finished?
    ensures var (s', next) := Next(c, s, w, d);
      Extends(s.files, s'.files) && SoundSystem(c, s') && WriterSound(c, s'.files, next)
  {
    var others := Interleave(c, s, d.moves);
    NothingIsEverReplaced(c, s, d.moves);
    SoundnessIsStable(c, s.files, others.files, w);
    if !d.fails {
      StepIsSound(c, others, w);
      ExtendsTransitive(s.files, others.files, Next(c, s, w, d).0.files);
    }
  }

  /** One step of a writer that is not among those of the system. */
  lemma StepIsSound(c: Codec, s: System, w: Writer)
    requires Lawful(c) && SoundSystem(c, s) && WriterSound(c, s.files, w) && !w.stage.Finished?
    ensures var (files, next) := Act(c, s.files, w);
      Extends(s.files, files) && SoundSystem(c, System(files, s.writers)) && WriterSound(c, files, next)
  {
    var (files, next) := Act(c, s.files, w);
    if w.call.PutObject? { ActPutIsSound(c, s.files, w); } else { ActPublishIsSound(c, s.files, w); }
    forall i | 0 <= i < |s.writers|
      ensures WriterSound(c, files, s.writers[i])
    {
      SoundnessIsStable(c, s.files, files, s.writers[i]);
    }
  }

  /** Nothing failed from the m-th step to before the n-th. */
  predicate Calm(env: nat -> Disturbance, m: nat, n: nat) {
    forall i :: m <= i < n ==> !At(env, i).fails
  }

  /** A call that ends in an I/O error had a failing step, its last; no other call had one. */
  lemma {:induction false} IoErrorsAreFailures(c: Codec, s: System, w: Writer, env: nat -> Disturbance, n: nat)
    requires Lawful(c) && SoundSystem(c, s) && WriterSound(c, s.files, w) && !w.stage.Finished?
    ensures var (s', w', m) := RunAmid(c, s, w, env, n);
      w'.stage.reply == Err(IoError) <==> !Calm(env, n, m)
    decreases Rank(w.stage)
  {
    var (s', next) := Next(c, s, w, At(env, n));
    NextIsSound(c, s, w, At(env, n));
    NextFails(c, s, w, At(env, n));
    if !next.stage.Finished? { IoErrorsAreFailures(c, s', next, env, n + 1); }
  }

  /** A sound writer's own step never ends in an I/O error. */
  lemma NextFails(c: Codec, s: System, w: Writer, d: Disturbance)
    requires Lawful(c) && SoundSystem(c, s) && WriterSound(c, s.files, w) && !w.stage.Finished?
    ensures Next(c, s, w, d).1.stage == Finished(Err(IoError)) <==> d.fails
  {
    NothingIsEverReplaced(c, s, d.moves);
    SoundnessIsStable(c, s.files, Interleave(c, s, d.moves).files, w);
  }

  /** A put among other writers: it can only be refused for its expected digest or a failing
      step, and when it returns, content of that digest is stored. */
  lemma PutAmid(
    c: Codec, s: System, verify: bool, content: Bytes, expected: Option<string>, env: nat -> Disturbance, n: nat)
    requires Lawful(c) && SoundSystem(c, s)
    ensures
      var (s', reply, m) := CallAmid(c, s, verify, PutObject(content, expected), env, n);
      var digest := c.sha256(content);
      && Extends(s.files, s'.files) && SoundSystem(c, s') && n < m
      && (reply.Ok? ==> reply.value == ObjectKey(digest) && digest in s'.files.objects)
      && (reply.Ok? <==> (expected.Some? ==> Lower(expected.value) == digest) && Calm(env, n, m))
      && (reply == Err(IoError) <==> !Calm(env, n, m))
  {
    var w := Writer(PutObject(content, expected), verify, Checking, NotLinked);
    RunAmidIsSound(c, s, w, env, n);
    IoErrorsAreFailures(c, s, w, env, n);
  }

  /** The manifest of a returned publish is the one stored, unless another publisher may
      have come just before its last step, the link, and nothing was read back. The call
      took the steps before the `n`-th. */
  predicate Certain(verify: bool, files: Files, id: string, env: nat -> Disturbance, n: nat) {
    verify || id in files.manifests || (n > 0 && At(env, n - 1).moves == [])
  }

  /** A publish among other writers. */
  lemma PublishAmid(c: Codec, s: System, verify: bool, m: RunManifest, env: nat -> Disturbance, n: nat)
    requires Lawful(c) && SoundSystem(c, s)
    ensures
      var (s', reply, l) := CallAmid(c, s, verify, PublishManifest(m), env, n);
      var id := m.core.runId;
      && Extends(s.files, s'.files) && SoundSystem(c, s') && n < l
      && (reply == Err(IoError) <==> !Calm(env, n, l))
      && (reply.Ok? ==>
            && IdentityValid(c, m) && SafeRunId(id) && StoredManifest(c, s'.files, id).Some?
            && (Certain(verify, s.files, id, env, l) ==> StoredManifest(c, s'.files, id) == Some(m)))
      && (reply.Err? && reply.error != IoError ==>
            || !IdentityValid(c, m) || !SafeRunId(id)
            || (id in s'.files.manifests && StoredManifest(c, s'.files, id) != Some(m)))
  {
    var w := Writer(PublishManifest(m), verify, Checking, NotLinked);
    RunAmidIsSound(c, s, w, env, n);
    IoErrorsAreFailures(c, s, w, env, n);
    var (s', w', l) := RunAmid(c, s, w, env, n);
    if m.core.runId in s'.files.manifests { assert SoundManifest(c, s'.files, m.core.runId); }
    if w'.stage.reply.Ok? && Certain(verify, s.files, m.core.runId, env, l) { CertainIsSettled(c, s, w, env, n); }
  }

  lemma CertainIsSettled(c: Codec, s: System, w: Writer, env: nat -> Disturbance, n: nat)
    requires Lawful(c) && SoundSystem(c, s) && w.call.PublishManifest? && w.stage.Checking? && w.link.NotLinked?
    requires
      var (s', w', l) := RunAmid(c, s, w, env, n);
      w'.stage.reply.Ok? && n < l && Certain(w.verify, s.files, w.call.manifest.core.runId, env, l)
    ensures Settled(RunAmid(c, s, w, env, n).1)
  {
    if !w.verify {
      NothingIsEverReplaced(c, s, At(env, n).moves);
      var (s', next) := Next(c, s, w, At(env, n));
      assert RunAmid(c, s, w, env, n) == RunAmid(c, s', next, env, n + 1);
      if !next.stage.Finished? {
        SecondStepFinishes(c, s', next, At(env, n + 1));
        assert RunAmid(c, s', next, env, n + 1).1 == Next(c, s', next, At(env, n + 1)).1;
        assert RunAmid(c, s', next, env, n + 1).2 == n + 2;
        SecondStepSettles(c, s', next, At(env, n + 1));
      }
    }
  }

  lemma SecondStepFinishes(c: Codec, s: System, w: Writer, d: Disturbance)
    requires w.call.PublishManifest? && !w.verify && (w.stage.Reading? || w.stage.Linking?)
    ensures Next(c, s, w, d).1.stage.Finished?
  {}

  /** The second step of an unverified publish loses no link race if the
      manifest was already there or nobody moved in between. */
  lemma SecondStepSettles(c: Codec, s: System, w: Writer, d: Disturbance)
    requires w.call.PublishManifest? && !w.verify && w.link.NotLinked?
    requires w.stage.Reading? || (w.stage.Linking? && d.moves == [] && w.call.manifest.core.runId !in s.files.manifests)
    ensures Next(c, s, w, d).1.link != LinkLost
  {}

  // ----- What an undisturbed call does ------------------------------------------

  /** An undisturbed put succeeds unless the expected digest differs, and leaves
      the content itself if the digest was new. */
  lemma PutAlone(c: Codec, files: Files, verify: bool, content: Bytes, expected: Option<string>)
    requires Lawful(c) && SoundStore(c, files)
    ensures
      var (files', reply) := CallAlone(c, files, verify, PutObject(content, expected));
      var digest := c.sha256(content);
      if expected.Some? && Lower(expected.value) != digest
      then files' == files && reply == Err(IntegrityError)
      else
        && reply == Ok(ObjectKey(digest))
        && files' == (if digest in files.objects then files
                      else files.(objects := files.objects[digest := content]))
  {
    var w := Writer(PutObject(content, expected), verify, Checking, NotLinked);
    ThreeSteps(c, files, w);
  }

  lemma AloneIsSound(c: Codec, files: Files, verify: bool, call: Call)
    requires Lawful(c) && SoundStore(c, files)
    ensures var files' := CallAlone(c, files, verify, call).0; Extends(files, files') && SoundStore(c, files')
  {
    var w, env := Writer(call, verify, Checking, NotLinked), (n: nat) => CALM;
    RunAmidIsSound(c, System(files, []), w, env, 0);
    AmidNobody(c, System(files, []), w, env, 0);
  }

  /** An undisturbed publish succeeds exactly when the manifest is acceptable and
      nothing else is stored for the run; it then is what is stored. */
  lemma PublishAlone(c: Codec, files: Files, verify: bool, m: RunManifest)
    requires Lawful(c) && SoundStore(c, files)
    ensures
      var (files', reply) := CallAlone(c, files, verify, PublishManifest(m));
      var id := m.core.runId;
      && Extends(files, files') && files'.objects == files.objects && SoundStore(c, files')
      && (reply.Ok? <==> IdentityValid(c, m) && SafeRunId(id)
                         && (id in files.manifests ==> StoredManifest(c, files, id) == Some(m)))
      && (reply.Ok? ==> StoredManifest(c, files', id) == Some(m))
      && (reply.Err? ==> files' == files)
  {
    var w := Writer(PublishManifest(m), verify, Checking, NotLinked);
    AloneIsSound(c, files, verify, PublishManifest(m));
    if m.core.runId in files.manifests { assert SoundManifest(c, files, m.core.runId); }
    assert c.parse(c.pretty(m)) == Some(m);
    ThreeSteps(c, files, w);
  }
}
