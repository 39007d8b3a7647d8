/** Independent verification of a published manifest. */
module ManifestVerifier {
  import opened Prelude
  import opened Ordering
  import opened EvidenceKeys
  import opened EvidenceModel

  /** What a reader sees of the stored objects, artifact by artifact: which files exist
      when the i-th artifact is looked for, and which contents can be read when it is read.
      The store may change in between, and a file that exists may refuse to be read. */
  datatype View = View(present: nat -> set<string>, readable: nat -> map<string, Bytes>)

  /** A store that nobody changes. */
  function ViewOf(files: Files): View {
    View(i => files.objects.Keys, i => files.objects)
  }

  datatype Class = Malformed | Missing | Unreadable | Corrupted | Intact

  /** The i-th artifact of a manifest. */
  function Classify(c: Codec, view: View, i: nat, a: Entry): Class {
    match ResolveObjectKey(a.objectKey)
    case None => Malformed
    case Some(d) =>
      if d !in view.present(i) then Missing
      else if d !in view.readable(i) then Unreadable
      else if c.sha256(view.readable(i)[d]) != a.sha256 || |view.readable(i)[d]| != a.sizeBytes then Corrupted
      else Intact
  }

  /** The ids of the artifacts of one class, in manifest order. */
  function IdsOf(c: Codec, view: View, artifacts: seq<Entry>, class_: Class): seq<string> {
    if artifacts == [] then []
    else
      var last := |artifacts| - 1;
      IdsOf(c, view, artifacts[..last], class_) +
      if Classify(c, view, last, artifacts[last]) == class_ then [artifacts[last].artifactId] else []
  }

  predicate AllIntact(c: Codec, view: View, artifacts: seq<Entry>) {
    forall i :: 0 <= i < |artifacts| ==> Classify(c, view, i, artifacts[i]) == Intact
  }

  /** The manifest is self-consistent and every object it references exists,
      hashes to the recorded digest and has the recorded size. */
  predicate Verifies(c: Codec, view: View, m: RunManifest) {
    IdentityValid(c, m) && AllIntact(c, view, m.core.artifacts)
  }

  /** The error line of a manifest whose own digest is wrong; the other error
      lines are identified by the artifact they are about. */
  const DIGEST_MISMATCH := "Manifest canonical SHA-256 does not match the recorded digest."

  datatype VerificationResult = VerificationResult(
    runId: string,
    valid: bool,
    manifestDigestValid: bool,
    allArtifactsPresent: bool,
    allArtifactDigestsValid: bool,
    verifiedCount: nat,
    missing: seq<string>,
    corrupted: seq<string>,
    errors: seq<string>)

  lemma IdsOfNext(c: Codec, view: View, artifacts: seq<Entry>, i: nat, class_: Class)
    requires i < |artifacts|
    ensures IdsOf(c, view, artifacts[..i + 1], class_) ==
      IdsOf(c, view, artifacts[..i], class_) +
      if Classify(c, view, i, artifacts[i]) == class_ then [artifacts[i].artifactId] else []
  {
    assert artifacts[..i + 1][..i] == artifacts[..i];
  }

  /** Every artifact falls in exactly one class, so all of them are intact exactly
      when none is in another class. */
  lemma {:induction false} ClassesPartition(c: Codec, view: View, artifacts: seq<Entry>)
    ensures
      Size(c, view, artifacts, Malformed) + Size(c, view, artifacts, Missing)
      + Size(c, view, artifacts, Unreadable) + Size(c, view, artifacts, Corrupted)
      + Size(c, view, artifacts, Intact) == |artifacts|
    decreases |artifacts|
  {
    if artifacts != [] {
      ClassesPartition(c, view, artifacts[..|artifacts| - 1]);
      SizeOfLast(c, view, artifacts, Malformed);
      SizeOfLast(c, view, artifacts, Missing);
      SizeOfLast(c, view, artifacts, Unreadable);
      SizeOfLast(c, view, artifacts, Corrupted);
      SizeOfLast(c, view, artifacts, Intact);
    }
  }

  function Size(c: Codec, view: View, artifacts: seq<Entry>, class_: Class): nat {
    |IdsOf(c, view, artifacts, class_)|
  }

  lemma SizeOfLast(c: Codec, view: View, artifacts: seq<Entry>, class_: Class)
    requires artifacts != []
    ensures Size(c, view, artifacts, class_) ==
      Size(c, view, artifacts[..|artifacts| - 1], class_) +
      if Classify(c, view, |artifacts| - 1, artifacts[|artifacts| - 1]) == class_ then 1 else 0
  {}

  /** A class contains everything when its list is as long as the manifest's, and
      nothing when its list is empty. */
  lemma {:induction false} ClassIsAllOrNothing(c: Codec, view: View, artifacts: seq<Entry>, class_: Class)
    ensures Size(c, view, artifacts, class_) <= |artifacts|
    ensures Size(c, view, artifacts, class_) == |artifacts|
            <==> forall i :: 0 <= i < |artifacts| ==> Classify(c, view, i, artifacts[i]) == class_
    ensures Size(c, view, artifacts, class_) == 0
            <==> forall i :: 0 <= i < |artifacts| ==> Classify(c, view, i, artifacts[i]) != class_
    decreases |artifacts|
  {
    if artifacts != [] {
      var n := |artifacts| - 1;
      var front := artifacts[..n];
      ClassIsAllOrNothing(c, view, front, class_);
      SizeOfLast(c, view, artifacts, class_);
      assert forall i :: 0 <= i < n ==> front[i] == artifacts[i];
      assert forall i :: 0 <= i < |artifacts| ==> i == n || artifacts[i] == front[i];
    }
  }

  /** The running totals after the artifacts of `front`. */
  predicate Tallied(c: Codec, view: View, front: seq<Entry>,
                    missing: seq<string>, corrupted: seq<string>, unreadable: seq<string>, verified: nat) {
    && Size(c, view, front, Malformed) == 0
    && missing == IdsOf(c, view, front, Missing)
    && corrupted == IdsOf(c, view, front, Corrupted)
    && unreadable == IdsOf(c, view, front, Unreadable)
    && verified == Size(c, view, front, Intact)
  }

  lemma TalliedNext(c: Codec, view: View, artifacts: seq<Entry>, i: nat,
                    missing: seq<string>, corrupted: seq<string>, unreadable: seq<string>, verified: nat)
    requires i < |artifacts|
    requires Tallied(c, view, artifacts[..i], missing, corrupted, unreadable, verified)
    ensures
      var next, id := artifacts[..i + 1], artifacts[i].artifactId;
      match Classify(c, view, i, artifacts[i])
      case Malformed => true
      case Missing => Tallied(c, view, next, missing + [id], corrupted, unreadable, verified)
      case Unreadable => Tallied(c, view, next, missing, corrupted, unreadable + [id], verified)
      case Corrupted => Tallied(c, view, next, missing, corrupted + [id], unreadable, verified)
      case Intact => Tallied(c, view, next, missing, corrupted, unreadable, verified + 1)
  {
    IdsOfNext(c, view, artifacts, i, Malformed);
    IdsOfNext(c, view, artifacts, i, Missing);
    IdsOfNext(c, view, artifacts, i, Corrupted);
    IdsOfNext(c, view, artifacts, i, Unreadable);
    IdsOfNext(c, view, artifacts, i, Intact);
  }

  /** The loop over the referenced artifacts. */
  method TallyArtifacts(c: Codec, view: View, artifacts: seq<Entry>)
    returns (malformed: bool, missing: seq<string>, corrupted: seq<string>, errors: seq<string>, verified: nat)
    ensures malformed <==> Size(c, view, artifacts, Malformed) != 0
    ensures !malformed ==> Tallied(c, view, artifacts, missing, corrupted, errors, verified)
  {
    missing, corrupted, errors, verified := [], [], [], 0;
    for i := 0 to |artifacts|
      invariant Tallied(c, view, artifacts[..i], missing, corrupted, errors, verified)
    {
      TalliedNext(c, view, artifacts, i, missing, corrupted, errors, verified);
      var a := artifacts[i];
      var key := ResolveObjectKey(a.objectKey);
      if key.None? {
        ClassIsAllOrNothing(c, view, artifacts, Malformed);
        return true, missing, corrupted, errors, verified;
      }
      if key.value !in view.present(i) {
        missing := missing + [a.artifactId];
        continue;
      }
      if key.value !in view.readable(i) {
        errors := errors + [a.artifactId];
        continue;
      }
      var content := view.readable(i)[key.value];
      if c.sha256(content) != a.sha256 {
        corrupted := corrupted + [a.artifactId];
        continue;
      }
      if |content| != a.sizeBytes {
        corrupted := corrupted + [a.artifactId];
        continue;
      }
      verified := verified + 1;
    }
    assert artifacts[..|artifacts|] == artifacts;
    malformed := false;
  }

  // ----- What a report means, artifact by artifact -----------------------------------

  /** The artifact's key names no digest. */
  predicate KeyRefused(a: Entry) { ResolveObjectKey(a.objectKey).None? }

  /** The file its key names does not exist when it is looked for. */
  predicate AbsentAt(view: View, i: nat, a: Entry) {
    ResolveObjectKey(a.objectKey).Some? && ResolveObjectKey(a.objectKey).value !in view.present(i)
  }

  /** The file exists but cannot be read. */
  predicate UnreadableAt(view: View, i: nat, a: Entry) {
    && ResolveObjectKey(a.objectKey).Some? && ResolveObjectKey(a.objectKey).value in view.present(i)
    && ResolveObjectKey(a.objectKey).value !in view.readable(i)
  }

  /** The file can be read; what it holds is not of the recorded digest and size, or is. */
  predicate ReadAt(c: Codec, view: View, i: nat, a: Entry, asRecorded: bool) {
    && ResolveObjectKey(a.objectKey).Some? && ResolveObjectKey(a.objectKey).value in view.present(i)
    && ResolveObjectKey(a.objectKey).value in view.readable(i)
    && var content := view.readable(i)[ResolveObjectKey(a.objectKey).value];
       asRecorded == (c.sha256(content) == a.sha256 && |content| == a.sizeBytes)
  }

  lemma ClassesMean(c: Codec, view: View, i: nat, a: Entry)
    ensures match Classify(c, view, i, a)
      case Malformed => KeyRefused(a)
      case Missing => AbsentAt(view, i, a)
      case Unreadable => UnreadableAt(view, i, a)
      case Corrupted => ReadAt(c, view, i, a, false)
      case Intact => ReadAt(c, view, i, a, true)
  {}

  /** A manifest verifies exactly when its recorded digest is that of its canonical core and
      every artifact can be read and has the recorded digest and size. */
  lemma VerifiesExactlyWhen(c: Codec, view: View, m: RunManifest)
    ensures Verifies(c, view, m) <==>
      && c.sha256(c.canonicalCore(m.core)) == m.manifestSha256
      && forall i :: 0 <= i < |m.core.artifacts| ==> ReadAt(c, view, i, m.core.artifacts[i], true)
  {
    forall i | 0 <= i < |m.core.artifacts|
      ensures Classify(c, view, i, m.core.artifacts[i]) == Intact <==> ReadAt(c, view, i, m.core.artifacts[i], true)
    {
      ClassesMean(c, view, i, m.core.artifacts[i]);
    }
  }

  lemma {:induction false} IdsAre(c: Codec, view: View, artifacts: seq<Entry>, class_: Class, id: string)
    ensures id in IdsOf(c, view, artifacts, class_) <==>
      exists i :: 0 <= i < |artifacts| && Classify(c, view, i, artifacts[i]) == class_ && artifacts[i].artifactId == id
    decreases |artifacts|
  {
    if artifacts != [] {
      var n := |artifacts| - 1;
      var front := artifacts[..n];
      IdsAre(c, view, front, class_, id);
      assert forall i :: 0 <= i < n ==> front[i] == artifacts[i];
      if i :| 0 <= i < n && Classify(c, view, i, artifacts[i]) == class_ && artifacts[i].artifactId == id {
        assert Classify(c, view, i, front[i]) == class_;
      }
    }
  }

  /** Which artifacts the report of a verification names. */
  lemma ReportNames(c: Codec, view: View, artifacts: seq<Entry>, id: string)
    ensures id in IdsOf(c, view, artifacts, Missing) <==>
      exists i :: 0 <= i < |artifacts| && AbsentAt(view, i, artifacts[i]) && artifacts[i].artifactId == id
    ensures id in IdsOf(c, view, artifacts, Unreadable) <==>
      exists i :: 0 <= i < |artifacts| && UnreadableAt(view, i, artifacts[i]) && artifacts[i].artifactId == id
    ensures id in IdsOf(c, view, artifacts, Corrupted) <==>
      exists i :: 0 <= i < |artifacts| && ReadAt(c, view, i, artifacts[i], false) && artifacts[i].artifactId == id
  {
    IdsAre(c, view, artifacts, Missing, id);
    IdsAre(c, view, artifacts, Unreadable, id);
    IdsAre(c, view, artifacts, Corrupted, id);
    forall i | 0 <= i < |artifacts|
      ensures Classify(c, view, i, artifacts[i]) == Missing <==> AbsentAt(view, i, artifacts[i])
      ensures Classify(c, view, i, artifacts[i]) == Unreadable <==> UnreadableAt(view, i, artifacts[i])
      ensures Classify(c, view, i, artifacts[i]) == Corrupted <==> ReadAt(c, view, i, artifacts[i], false)
    {
      ClassesMean(c, view, i, artifacts[i]);
    }
  }

  lemma MalformedMeans(c: Codec, view: View, artifacts: seq<Entry>)
    ensures Size(c, view, artifacts, Malformed) != 0 <==> exists i :: 0 <= i < |artifacts| && KeyRefused(artifacts[i])
  {
    ClassIsAllOrNothing(c, view, artifacts, Malformed);
    forall i | 0 <= i < |artifacts|
      ensures Classify(c, view, i, artifacts[i]) == Malformed <==> KeyRefused(artifacts[i])
    {
      ClassesMean(c, view, i, artifacts[i]);
    }
  }

  /** All artifacts are intact exactly when the four lists of the others are empty. */
  lemma AllOrNothing(c: Codec, view: View, artifacts: seq<Entry>)
    ensures AllIntact(c, view, artifacts) <==> Size(c, view, artifacts, Intact) == |artifacts|
    ensures AllIntact(c, view, artifacts) <==>
      && Size(c, view, artifacts, Malformed) == 0 && Size(c, view, artifacts, Missing) == 0
      && Size(c, view, artifacts, Unreadable) == 0 && Size(c, view, artifacts, Corrupted) == 0
  {
    ClassIsAllOrNothing(c, view, artifacts, Intact);
    ClassesPartition(c, view, artifacts);
  }

  /** The report, by class. */
  ghost function ReportOf(c: Codec, view: View, m: RunManifest): VerificationResult {
    var artifacts := m.core.artifacts;
    VerificationResult(
      m.core.runId, Verifies(c, view, m), IdentityValid(c, m),
      Size(c, view, artifacts, Missing) == 0,
      Size(c, view, artifacts, Corrupted) == 0 && Size(c, view, artifacts, Unreadable) == 0,
      Size(c, view, artifacts, Intact),
      SortBy(IdsOf(c, view, artifacts, Missing), Leq), SortBy(IdsOf(c, view, artifacts, Corrupted), Leq),
      IdsOf(c, view, artifacts, Unreadable) + if IdentityValid(c, m) then [] else [DIGEST_MISMATCH])
  }

  /** The verdict: the manifest's own digest is right, and every artifact can be read and is
      as recorded. The report counts those that are. */
  lemma VerdictIsTrue(c: Codec, view: View, m: RunManifest)
    ensures
      var r, artifacts := ReportOf(c, view, m), m.core.artifacts;
      && r.runId == m.core.runId
      && (r.manifestDigestValid <==> c.sha256(c.canonicalCore(m.core)) == m.manifestSha256)
      && (r.valid <==>
            && c.sha256(c.canonicalCore(m.core)) == m.manifestSha256
            && forall i :: 0 <= i < |artifacts| ==> ReadAt(c, view, i, artifacts[i], true))
      && r.verifiedCount == |IntactOnes(c, view, artifacts)|
      && (r.allArtifactsPresent <==> !exists i :: 0 <= i < |artifacts| && AbsentAt(view, i, artifacts[i]))
      && (r.allArtifactDigestsValid <==>
            && (!exists i :: 0 <= i < |artifacts| && ReadAt(c, view, i, artifacts[i], false))
            && (!exists i :: 0 <= i < |artifacts| && UnreadableAt(view, i, artifacts[i])))
  {
    VerifiesExactlyWhen(c, view, m);
    CountsAre(c, view, m.core.artifacts);
  }

  /** The names: which artifacts are reported as missing, as corrupted and as unreadable. */
  lemma NamesAreTrue(c: Codec, view: View, m: RunManifest, id: string)
    ensures
      var r, artifacts := ReportOf(c, view, m), m.core.artifacts;
      && (id in r.missing <==>
            exists i :: 0 <= i < |artifacts| && AbsentAt(view, i, artifacts[i]) && artifacts[i].artifactId == id)
      && (id in r.corrupted <==>
            exists i :: 0 <= i < |artifacts| && ReadAt(c, view, i, artifacts[i], false) && artifacts[i].artifactId == id)
      && (id in r.errors <==>
            || (id == DIGEST_MISMATCH && c.sha256(c.canonicalCore(m.core)) != m.manifestSha256)
            || exists i :: 0 <= i < |artifacts| && UnreadableAt(view, i, artifacts[i]) && artifacts[i].artifactId == id)
  {
    SortKeepsElements(IdsOf(c, view, m.core.artifacts, Missing), id);
    SortKeepsElements(IdsOf(c, view, m.core.artifacts, Corrupted), id);
    ReportNames(c, view, m.core.artifacts, id);
  }

  /** How many artifacts are of each class. */
  lemma CountsAre(c: Codec, view: View, artifacts: seq<Entry>)
    ensures Size(c, view, artifacts, Missing) == 0 <==> !exists i :: 0 <= i < |artifacts| && AbsentAt(view, i, artifacts[i])
    ensures Size(c, view, artifacts, Unreadable) == 0 <==>
      !exists i :: 0 <= i < |artifacts| && UnreadableAt(view, i, artifacts[i])
    ensures Size(c, view, artifacts, Corrupted) == 0 <==>
      !exists i :: 0 <= i < |artifacts| && ReadAt(c, view, i, artifacts[i], false)
    ensures Size(c, view, artifacts, Intact) == |IntactOnes(c, view, artifacts)|
  {
    ClassIsAllOrNothing(c, view, artifacts, Missing);
    ClassIsAllOrNothing(c, view, artifacts, Unreadable);
    ClassIsAllOrNothing(c, view, artifacts, Corrupted);
    IntactAreCounted(c, view, artifacts);
    forall i | 0 <= i < |artifacts|
      ensures Classify(c, view, i, artifacts[i]) == Missing <==> AbsentAt(view, i, artifacts[i])
      ensures Classify(c, view, i, artifacts[i]) == Unreadable <==> UnreadableAt(view, i, artifacts[i])
      ensures Classify(c, view, i, artifacts[i]) == Corrupted <==> ReadAt(c, view, i, artifacts[i], false)
    {
      ClassesMean(c, view, i, artifacts[i]);
    }
  }

  /** The positions of the artifacts that are as recorded. */
  ghost function IntactOnes(c: Codec, view: View, artifacts: seq<Entry>): set<nat> {
    set i: nat | i < |artifacts| && ReadAt(c, view, i, artifacts[i], true)
  }

  lemma {:induction false} IntactAreCounted(c: Codec, view: View, artifacts: seq<Entry>)
    ensures Size(c, view, artifacts, Intact) == |IntactOnes(c, view, artifacts)|
    decreases |artifacts|
  {
    if artifacts != [] {
      var n := |artifacts| - 1;
      IntactAreCounted(c, view, artifacts[..n]);
      ClassesMean(c, view, n, artifacts[n]);
      SizeOfLast(c, view, artifacts, Intact);
      IntactOnesThen(c, view, artifacts);
    }
  }

  lemma IntactOnesThen(c: Codec, view: View, artifacts: seq<Entry>)
    requires artifacts != []
    ensures
      var n := |artifacts| - 1;
      && IntactOnes(c, view, artifacts)
         == IntactOnes(c, view, artifacts[..n]) + (if ReadAt(c, view, n, artifacts[n], true) then {n} else {})
      && n !in IntactOnes(c, view, artifacts[..n])
  {
    var n := |artifacts| - 1;
    assert forall i :: 0 <= i < n ==> artifacts[..n][i] == artifacts[i];
  }

  lemma SortKeepsElements(ids: seq<string>, id: string)
    ensures id in SortBy(ids, Leq) <==> id in ids
  {
    assert id in SortBy(ids, Leq) <==> id in multiset(SortBy(ids, Leq));
    assert id in ids <==> id in multiset(ids);
  }

  /** The report, from the lists the loop fills. */
  lemma ReportIsBuilt(c: Codec, view: View, m: RunManifest,
                      missing: seq<string>, corrupted: seq<string>, errors: seq<string>, verified: nat)
    requires Tallied(c, view, m.core.artifacts, missing, corrupted, errors, verified)
    ensures
      var digests := corrupted == [] && errors == [];
      ReportOf(c, view, m) == VerificationResult(
        m.core.runId,
        IdentityValid(c, m) && missing == [] && digests && verified == |m.core.artifacts|,
        IdentityValid(c, m), missing == [], digests, verified,
        SortBy(missing, Leq), SortBy(corrupted, Leq),
        errors + if IdentityValid(c, m) then [] else [DIGEST_MISMATCH])
  {
    AllOrNothing(c, view, m.core.artifacts);
  }

  /** A malformed object key raises; otherwise the report is the one that tells the truth
      about every artifact, as it was when it was looked for and read. */
  method VerifyManifest(c: Codec, view: View, m: RunManifest)
    returns (r: Option<VerificationResult>)
    ensures r.None? <==> exists i :: 0 <= i < |m.core.artifacts| && KeyRefused(m.core.artifacts[i])
    ensures r.Some? ==> r.value == ReportOf(c, view, m)
  {
    var digestValid := IdentityValid(c, m);
    var artifacts := m.core.artifacts;
    var malformed, missing, corrupted, errors, verified := TallyArtifacts(c, view, artifacts);
    MalformedMeans(c, view, artifacts);
    if malformed { return None; }
    ReportIsBuilt(c, view, m, missing, corrupted, errors, verified);
    var present := missing == [];
    var digests := corrupted == [] && errors == [];
    var valid := digestValid && present && digests && verified == |artifacts|;
    errors := errors + if digestValid then [] else [DIGEST_MISMATCH];
    r := Some(VerificationResult(m.core.runId, valid, digestValid, present, digests, verified,
                                 SortBy(missing, Leq), SortBy(corrupted, Leq), errors));
  }

  /** At every moment the view shows at least what `files` holds. */
  ghost predicate Shows(view: View, files: Files) {
    forall i: nat, d :: d in files.objects ==>
      d in view.present(i) && d in view.readable(i) && view.readable(i)[d] == files.objects[d]
  }

  /** Verification is stable: what verifies against a store verifies while that store
      grows, even in the middle of the verification. */
  lemma StaysVerified(c: Codec, files: Files, view: View, m: RunManifest)
    requires Shows(view, files) && Verifies(c, ViewOf(files), m)
    ensures Verifies(c, view, m)
  {
    forall i | 0 <= i < |m.core.artifacts|
      ensures Classify(c, view, i, m.core.artifacts[i]) == Intact
    {
      assert Classify(c, ViewOf(files), i, m.core.artifacts[i]) == Intact;
    }
  }

  /** A manifest stays retrievable as well. */
  lemma StaysStored(c: Codec, files: Files, later: Files, id: string)
    requires Extends(files, later) && StoredManifest(c, files, id).Some?
    ensures StoredManifest(c, later, id) == StoredManifest(c, files, id)
  {}
}
