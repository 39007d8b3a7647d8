/** What the policy's decision means, and when the result contract accepts it. */
module GateDecisions {
  import opened Prelude
  import opened GateModel
  import opened GatePolicy

  // ----- Findings as a set --------------------------------------------------------

  lemma {:induction false} ControlSource(controls: seq<Control>, p: Policy, f: Finding)
    ensures f in FromControls(controls, p) <==> exists c :: c in controls && ControlFinding(c, p) == Some(f)
  {
    if controls != [] {
      var front, last := controls[..|controls| - 1], controls[|controls| - 1];
      ControlSource(front, p, f);
      assert controls == front + [last];
    }
  }

  lemma {:induction false} ThresholdSource(thresholds: seq<Threshold>, metrics: map<string, Number>, f: Finding)
    ensures f in FromThresholds(thresholds, metrics)
       <==> exists t :: t in thresholds && ThresholdFinding(t, metrics) == Some(f)
  {
    if thresholds != [] {
      var front, last := thresholds[..|thresholds| - 1], thresholds[|thresholds| - 1];
      ThresholdSource(front, metrics, f);
      assert thresholds == front + [last];
    }
  }

  lemma {:induction false} HighestIsMaximum(findings: seq<Finding>)
    ensures forall f :: f in findings ==> Rank(f.decision) <= Rank(Highest(findings))
    ensures findings != [] && Highest(findings) != Pass ==>
              exists f :: f in findings && f.decision == Highest(findings)
  {
    if findings != [] {
      var front, last := findings[..|findings| - 1], findings[|findings| - 1];
      HighestIsMaximum(front);
      assert findings == front + [last];
      assert last in findings;
    }
  }

  lemma {:induction false} CausesAreExact(findings: seq<Finding>, keep: Finding -> bool, x: Cause)
    ensures x in Causes(findings, keep) <==> exists f :: f in findings && keep(f) && f.cause == x
  {
    if findings != [] {
      var front, last := findings[..|findings| - 1], findings[|findings| - 1];
      CausesAreExact(front, keep, x);
      assert findings == front + [last];
    }
  }

  lemma NoFindingPasses(controls: seq<Control>, metrics: map<string, Number>, p: Policy, f: Finding)
    requires ValidPolicy(p) && f in Findings(controls, metrics, p)
    ensures f.decision != Pass
  {
    ControlSource(controls, p, f);
    ThresholdSource(p.thresholds, metrics, f);
  }

  // ----- The decision ---------------------------------------------------------------

  predicate AskedByControl(controls: seq<Control>, p: Policy, d: Decision) {
    exists c :: c in controls && ControlFinding(c, p).Some? && ControlFinding(c, p).value.decision == d
  }

  predicate AskedByThreshold(p: Policy, metrics: map<string, Number>, d: Decision) {
    exists t :: t in p.thresholds && ThresholdFinding(t, metrics).Some? && ThresholdFinding(t, metrics).value.decision == d
  }

  /** The decision is the highest finding: no control or threshold asks for more, and
      one asks for exactly that. PASS means there is no finding at all. */
  lemma DecisionIsHighestFinding(controls: seq<Control>, metrics: map<string, Number>, p: Policy)
    requires ValidPolicy(p)
    ensures
      var d := Decided(controls, metrics, p).decision;
      && (forall e :: AskedByControl(controls, p, e) || AskedByThreshold(p, metrics, e) ==> Rank(e) <= Rank(d))
      && (d == Pass <==> Findings(controls, metrics, p) == [])
      && (d != Pass ==> AskedByControl(controls, p, d) || AskedByThreshold(p, metrics, d))
  {
    var d := Decided(controls, metrics, p).decision;
    forall e | AskedByControl(controls, p, e) || AskedByThreshold(p, metrics, e)
      ensures Rank(e) <= Rank(d)
    {
      NothingAsksForMore(controls, metrics, p, e);
    }
    PassMeansNoFinding(controls, metrics, p);
    if d != Pass { SomethingAsksForIt(controls, metrics, p); }
  }

  lemma NothingAsksForMore(controls: seq<Control>, metrics: map<string, Number>, p: Policy, e: Decision)
    requires AskedByControl(controls, p, e) || AskedByThreshold(p, metrics, e)
    ensures Rank(e) <= Rank(Decided(controls, metrics, p).decision)
  {
    HighestIsMaximum(Findings(controls, metrics, p));
    if AskedByControl(controls, p, e) {
      var c :| c in controls && ControlFinding(c, p).Some? && ControlFinding(c, p).value.decision == e;
      ControlSource(controls, p, ControlFinding(c, p).value);
      assert ControlFinding(c, p).value in Findings(controls, metrics, p);
    } else {
      var t :| t in p.thresholds && ThresholdFinding(t, metrics).Some? && ThresholdFinding(t, metrics).value.decision == e;
      ThresholdSource(p.thresholds, metrics, ThresholdFinding(t, metrics).value);
      assert ThresholdFinding(t, metrics).value in Findings(controls, metrics, p);
    }
  }

  lemma PassMeansNoFinding(controls: seq<Control>, metrics: map<string, Number>, p: Policy)
    requires ValidPolicy(p)
    ensures Decided(controls, metrics, p).decision == Pass <==> Findings(controls, metrics, p) == []
  {
    var findings := Findings(controls, metrics, p);
    HighestIsMaximum(findings);
    if findings != [] {
      assert findings[0] in findings;
      NoFindingPasses(controls, metrics, p, findings[0]);
    }
  }

  lemma SomethingAsksForIt(controls: seq<Control>, metrics: map<string, Number>, p: Policy)
    requires Decided(controls, metrics, p).decision != Pass
    ensures
      var d := Decided(controls, metrics, p).decision;
      AskedByControl(controls, p, d) || AskedByThreshold(p, metrics, d)
  {
    var findings := Findings(controls, metrics, p);
    HighestIsMaximum(findings);
    var f :| f in findings && f.decision == Highest(findings);
    ControlSource(controls, p, f);
    ThresholdSource(p.thresholds, metrics, f);
    if f in FromControls(controls, p) {
      var c :| c in controls && ControlFinding(c, p) == Some(f);
    } else {
      var t :| t in p.thresholds && ThresholdFinding(t, metrics) == Some(f);
    }
  }

  /** The reasons are exactly the findings of the winning precedence. */
  lemma ReasonsAreExact(controls: seq<Control>, metrics: map<string, Number>, p: Policy, x: Cause)
    requires Findings(controls, metrics, p) != []
    ensures
      var r := Decided(controls, metrics, p);
      EverythingPassed !in r.reasons
      && (Because(x) in r.reasons <==> Finding(r.decision, x) in Findings(controls, metrics, p))
  {
    var r, findings := Decided(controls, metrics, p), Findings(controls, metrics, p);
    var keep := (f: Finding) => f.decision == r.decision;
    CausesAreExact(findings, keep, x);
    var causes := Causes(findings, keep);
    assert Because(x) in Explain(causes) <==> x in causes by {
      if x in causes {
        var i :| 0 <= i < |causes| && causes[i] == x;
        assert Explain(causes)[i] == Because(x);
      }
    }
  }

  /** The obligations are exactly the causes of the findings that oblige, each once. */
  lemma ObligationsAreExact(controls: seq<Control>, metrics: map<string, Number>, p: Policy, x: Cause)
    ensures
      var r := Decided(controls, metrics, p);
      && Distinct(r.unmet)
      && (x in r.unmet <==> exists f :: f in Findings(controls, metrics, p) && Obliges(f) && f.cause == x)
  {
    CausesAreExact(Findings(controls, metrics, p), Obliges, x);
  }

  /** `c` errored, was not already failed by the policy, and `text` is one of its
      reasons that speak of a contradiction. */
  predicate Contradicts(c: Control, p: Policy, text: string) {
    && c.status.Error? && GivesReason(c.reasons, text)
    && !(ControlFinding(c, p).Some? && ControlFinding(c, p).value.decision.Fail?)
  }

  predicate GivesReason(reasons: seq<Remark>, text: string) {
    exists reason :: reason in reasons && reason.text == text && SpeaksOfContradiction(reason)
  }

  lemma {:induction false} ContradictorySource(c: Control, reasons: seq<Remark>, x: Contradiction)
    ensures x in Contradictory(c, reasons) <==> x.id == c.id && GivesReason(reasons, x.reason)
  {
    if reasons != [] {
      ContradictorySource(c, reasons[..|reasons| - 1], x);
      assert reasons == reasons[..|reasons| - 1] + [reasons[|reasons| - 1]];
    }
  }

  lemma {:induction false} ContradictionSource(controls: seq<Control>, p: Policy, x: Contradiction)
    ensures x in AllContradictions(controls, p)
       <==> exists c :: c in controls && c.id == x.id && Contradicts(c, p, x.reason)
  {
    if controls != [] {
      var front, last := controls[..|controls| - 1], controls[|controls| - 1];
      ContradictionSource(front, p, x);
      ContradictorySource(last, last.reasons, x);
      assert controls == front + [last];
    }
  }

  /** A decision other than PASS lists exactly the contradictions of its controls. */
  lemma ContradictionsAreExact(controls: seq<Control>, metrics: map<string, Number>, p: Policy, x: Contradiction)
    requires Findings(controls, metrics, p) != []
    ensures
      var r := Decided(controls, metrics, p);
      && Distinct(r.contradictions)
      && (x in r.contradictions <==> exists c :: c in controls && c.id == x.id && Contradicts(c, p, x.reason))
  {
    ContradictionSource(controls, p, x);
  }

  // ----- Order and growth -------------------------------------------------------------

  /** Every control and threshold of the first evidence is in the second. */
  predicate Included(controls: seq<Control>, p: Policy, more: seq<Control>, q: Policy) {
    && (forall c :: c in controls ==> c in more)
    && (forall t :: t in p.thresholds ==> t in q.thresholds)
    && q.(thresholds := p.thresholds) == p
  }

  /** Adding controls or thresholds anywhere never lowers the decision. */
  lemma MoreEvidenceNeverLowers(
    controls: seq<Control>, p: Policy, more: seq<Control>, q: Policy, metrics: map<string, Number>)
    requires Included(controls, p, more, q)
    ensures Rank(Decided(controls, metrics, p).decision) <= Rank(Decided(more, metrics, q).decision)
  {
    var findings, grown := Findings(controls, metrics, p), Findings(more, metrics, q);
    HighestIsMaximum(findings);
    HighestIsMaximum(grown);
    if findings != [] && Highest(findings) != Pass {
      var f :| f in findings && f.decision == Highest(findings);
      SameRules(controls, p, q);
      ControlSource(controls, p, f);
      ThresholdSource(p.thresholds, metrics, f);
      ControlSource(more, q, f);
      ThresholdSource(q.thresholds, metrics, f);
      assert f in grown;
    }
  }

  lemma SameRules(controls: seq<Control>, p: Policy, q: Policy)
    requires q.(thresholds := p.thresholds) == p
    ensures forall c :: c in controls ==> ControlFinding(c, p) == ControlFinding(c, q)
  {}

  /** Up to their order, nothing in the decision depends on the order of the controls or of
      the thresholds; obligations and contradictions are lists without repetition. */
  lemma OrderDoesNotMatter(
    controls: seq<Control>, permuted: seq<Control>, p: Policy, q: Policy, metrics: map<string, Number>)
    requires multiset(controls) == multiset(permuted) && multiset(p.thresholds) == multiset(q.thresholds)
    requires q.(thresholds := p.thresholds) == p
    ensures
      var d, e := Decided(controls, metrics, p), Decided(permuted, metrics, q);
      && d.decision == e.decision
      && multiset(d.reasons) == multiset(e.reasons)
      && (forall x :: x in d.unmet <==> x in e.unmet)
      && (forall x :: x in d.contradictions <==> x in e.contradictions)
  {
    DecisionIgnoresOrder(controls, permuted, p, q, metrics);
    FindingsIgnoreOrder(controls, permuted, p, q, metrics);
    var findings, others := Findings(controls, metrics, p), Findings(permuted, metrics, q);
    var d := Highest(findings);
    ReasonsIgnoreOrder(findings, others, (f: Finding) => f.decision == d);
    CausesAgree(others, (f: Finding) => f.decision == d, (f: Finding) => f.decision == Highest(others));
    CausesIgnoreOrder(findings, others, Obliges);
    SameElements(Causes(findings, Obliges), Causes(others, Obliges));
    SameElements(AllContradictions(controls, p), AllContradictions(permuted, q));
  }

  lemma DecisionIgnoresOrder(
    controls: seq<Control>, permuted: seq<Control>, p: Policy, q: Policy, metrics: map<string, Number>)
    requires multiset(controls) == multiset(permuted) && multiset(p.thresholds) == multiset(q.thresholds)
    requires q.(thresholds := p.thresholds) == p
    ensures Decided(controls, metrics, p).decision == Decided(permuted, metrics, q).decision
  {
    SameElements(controls, permuted);
    SameElements(p.thresholds, q.thresholds);
    assert p.(thresholds := q.thresholds) == q;
    MoreEvidenceNeverLowers(controls, p, permuted, q, metrics);
    MoreEvidenceNeverLowers(permuted, q, controls, p, metrics);
    RankIsInjective(Decided(controls, metrics, p).decision, Decided(permuted, metrics, q).decision);
  }

  lemma FindingsIgnoreOrder(
    controls: seq<Control>, permuted: seq<Control>, p: Policy, q: Policy, metrics: map<string, Number>)
    requires multiset(controls) == multiset(permuted) && multiset(p.thresholds) == multiset(q.thresholds)
    requires q.(thresholds := p.thresholds) == p
    ensures multiset(Findings(controls, metrics, p)) == multiset(Findings(permuted, metrics, q))
    ensures multiset(AllContradictions(controls, p)) == multiset(AllContradictions(permuted, q))
  {
    var ofControl, ofThreshold := c => Listed(ControlFinding(c, p)), t => Listed(ThresholdFinding(t, metrics));
    var contradicting := c => ControlContradictions(c, p);
    CollectedControls(controls, p, p, ofControl, contradicting);
    CollectedControls(permuted, p, q, ofControl, contradicting);
    CollectedThresholds(p.thresholds, metrics, ofThreshold);
    CollectedThresholds(q.thresholds, metrics, ofThreshold);
    CollectIgnoresOrder(controls, permuted, ofControl);
    CollectIgnoresOrder(controls, permuted, contradicting);
    CollectIgnoresOrder(p.thresholds, q.thresholds, ofThreshold);
  }

  lemma {:induction false} CollectedControls(
    controls: seq<Control>, p: Policy, q: Policy, give: Control -> seq<Finding>,
    contradicting: Control -> seq<Contradiction>)
    requires q.(thresholds := p.thresholds) == p
    requires forall c :: give(c) == Listed(ControlFinding(c, p)) && contradicting(c) == ControlContradictions(c, p)
    ensures FromControls(controls, q) == Collect(controls, give)
    ensures AllContradictions(controls, q) == Collect(controls, contradicting)
    decreases |controls|
  {
    if controls != [] {
      CollectedControls(controls[..|controls| - 1], p, q, give, contradicting);
      SameRules(controls, p, q);
    }
  }

  lemma {:induction false} CollectedThresholds(
    thresholds: seq<Threshold>, metrics: map<string, Number>, give: Threshold -> seq<Finding>)
    requires forall t :: give(t) == Listed(ThresholdFinding(t, metrics))
    ensures FromThresholds(thresholds, metrics) == Collect(thresholds, give)
    decreases |thresholds|
  {
    if thresholds != [] { CollectedThresholds(thresholds[..|thresholds| - 1], metrics, give); }
  }

  lemma {:induction false} CollectedCauses(findings: seq<Finding>, keep: Finding -> bool, give: Finding -> seq<Cause>)
    requires forall f :: give(f) == if keep(f) then [f.cause] else []
    ensures Causes(findings, keep) == Collect(findings, give)
    decreases |findings|
  {
    if findings != [] { CollectedCauses(findings[..|findings| - 1], keep, give); }
  }

  lemma CausesIgnoreOrder(findings: seq<Finding>, others: seq<Finding>, keep: Finding -> bool)
    requires multiset(findings) == multiset(others)
    ensures multiset(Causes(findings, keep)) == multiset(Causes(others, keep))
  {
    var give := (f: Finding) => if keep(f) then [f.cause] else [];
    CollectedCauses(findings, keep, give);
    CollectedCauses(others, keep, give);
    CollectIgnoresOrder(findings, others, give);
  }

  lemma {:induction false} CausesAgree(findings: seq<Finding>, keep: Finding -> bool, same: Finding -> bool)
    requires forall f :: keep(f) == same(f)
    ensures Causes(findings, keep) == Causes(findings, same)
    decreases |findings|
  {
    if findings != [] { CausesAgree(findings[..|findings| - 1], keep, same); }
  }

  lemma ReasonsIgnoreOrder(findings: seq<Finding>, others: seq<Finding>, keep: Finding -> bool)
    requires multiset(findings) == multiset(others)
    ensures multiset(Explain(Causes(findings, keep))) == multiset(Explain(Causes(others, keep)))
  {
    var give := cause => [Because(cause)];
    CausesIgnoreOrder(findings, others, keep);
    ExplainedOneByOne(Causes(findings, keep), give);
    ExplainedOneByOne(Causes(others, keep), give);
    CollectIgnoresOrder(Causes(findings, keep), Causes(others, keep), give);
  }

  lemma {:induction false} ExplainedOneByOne(causes: seq<Cause>, give: Cause -> seq<Reason>)
    requires forall cause :: give(cause) == [Because(cause)]
    ensures Explain(causes) == Collect(causes, give)
    decreases |causes|
  {
    if causes != [] {
      var front := causes[..|causes| - 1];
      ExplainedOneByOne(front, give);
      assert Explain(causes) == Explain(front) + [Because(causes[|causes| - 1])];
    }
  }

  lemma SameElements<T>(xs: seq<T>, ys: seq<T>)
    requires multiset(xs) == multiset(ys)
    ensures forall x :: x in xs <==> x in ys
  {
    forall x
      ensures x in xs <==> x in ys
    {
      assert x in multiset(xs) <==> x in multiset(ys);
    }
  }

  lemma RankIsInjective(d: Decision, e: Decision)
    requires Rank(d) == Rank(e)
    ensures d == e
  {}

  // ----- The result contract -------------------------------------------------------------

  predicate Accepted(controls: seq<Control>, d: PolicyDecision) {
    ContractAccepts(controls, d.decision, d.unmet, d.contradictions)
  }

  /** A MORE_EVIDENCE_REQUIRED decision always names an obligation. */
  lemma MoreEvidenceNamesObligation(controls: seq<Control>, metrics: map<string, Number>, p: Policy)
    requires Decided(controls, metrics, p).decision.MoreEvidenceRequired?
    ensures Decided(controls, metrics, p).unmet != []
  {
    var findings := Findings(controls, metrics, p);
    HighestIsMaximum(findings);
    var f :| f in findings && f.decision == Highest(findings);
    AskingObliges(controls, metrics, p, f);
    CausesAreExact(findings, Obliges, f.cause);
    assert f.cause in Dedup(Causes(findings, Obliges));
  }

  lemma AskingObliges(controls: seq<Control>, metrics: map<string, Number>, p: Policy, f: Finding)
    requires f in Findings(controls, metrics, p) && f.decision.MoreEvidenceRequired?
    ensures Obliges(f)
  {
    ControlSource(controls, p, f);
    ThresholdSource(p.thresholds, metrics, f);
    if f in FromControls(controls, p) {
      var c :| c in controls && ControlFinding(c, p) == Some(f);
    } else {
      var t :| t in p.thresholds && ThresholdFinding(t, metrics) == Some(f);
    }
  }

  /** The contract accepts a decision exactly when a dominant failure led to FAIL and a
      mandatory failure did not lead to PASS; its other rules always hold. */
  lemma AcceptedExactlyWhen(controls: seq<Control>, metrics: map<string, Number>, p: Policy)
    requires ValidPolicy(p)
    ensures
      var d := Decided(controls, metrics, p);
      Accepted(controls, d) <==>
        && ((exists c :: c in controls && c.severity == DominantFailure && (c.status == Failed || c.status == Error))
              ==> d.decision == Fail)
        && ((exists c :: c in controls && c.severity == Mandatory && (c.status == Failed || c.status == Error))
              ==> d.decision != Pass)
  {
    DecisionIsHighestFinding(controls, metrics, p);
    if Decided(controls, metrics, p).decision.MoreEvidenceRequired? {
      MoreEvidenceNamesObligation(controls, metrics, p);
    }
  }

  /** With both failure flags on, every decision is accepted. */
  lemma FlagsGuaranteeAcceptance(controls: seq<Control>, metrics: map<string, Number>, p: Policy)
    requires ValidPolicy(p) && p.failOnDominant && p.failOnMandatory
    ensures Accepted(controls, Decided(controls, metrics, p))
    ensures DominantFailurePresent(controls) || MandatoryFailurePresent(controls) ==>
              Decided(controls, metrics, p).decision == Fail
  {
    if DominantFailurePresent(controls) {
      var c :| c in controls && c.severity.DominantFailure? && Failing(c.status);
      FailingControlFails(controls, metrics, p, c);
    }
    if MandatoryFailurePresent(controls) {
      var c :| c in controls && c.severity.Mandatory? && Failing(c.status);
      FailingControlFails(controls, metrics, p, c);
    }
    AcceptedExactlyWhen(controls, metrics, p);
  }

  lemma FailingControlFails(controls: seq<Control>, metrics: map<string, Number>, p: Policy, c: Control)
    requires c in controls && ControlFinding(c, p).Some? && ControlFinding(c, p).value.decision == Fail
    ensures Decided(controls, metrics, p).decision == Fail
  {
    var f := ControlFinding(c, p).value;
    ControlSource(controls, p, f);
    HighestIsMaximum(Findings(controls, metrics, p));
    assert f in Findings(controls, metrics, p);
  }

  /** Without thresholds, a policy's every decision is accepted only if both flags are
      on: one failed control is enough to be refused otherwise. */
  lemma AcceptanceNeedsFlags(p: Policy, c: Control)
    requires p.thresholds == [] && Failing(c.status)
    requires c.severity.DominantFailure? || c.severity.Mandatory?
    ensures Accepted([c], Decided([c], map[], p))
       <==> if c.severity.DominantFailure? then p.failOnDominant else p.failOnMandatory
  {
    AcceptedExactlyWhen([c], map[], p);
    Lone(c, p);
    OneFailure(c);
  }

  lemma OneFailure(c: Control)
    requires Failing(c.status)
    ensures DominantFailurePresent([c]) <==> c.severity.DominantFailure?
    ensures MandatoryFailurePresent([c]) <==> c.severity.Mandatory?
  {
    assert c in [c];
  }

  lemma Lone(c: Control, p: Policy)
    requires p.thresholds == []
    ensures Findings([c], map[], p) == Listed(ControlFinding(c, p))
    ensures Decided([c], map[], p).decision
         == if ControlFinding(c, p).Some? then ControlFinding(c, p).value.decision else Pass
  {
    ControlsThen([], c, p);
    assert [] + [c] == [c];
    assert Findings([c], map[], p) == Listed(ControlFinding(c, p));
    var f := ControlFinding(c, p);
    if f.Some? {
      CausesThen([], f.value, Obliges);
      assert [] + [f.value] == [f.value];
    }
  }
}
