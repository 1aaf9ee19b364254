/** From findings and checks to the published risk score, and what that score means. */
module Risk {
  import opened Prelude
  import opened Sorting
  import opened Keys
  import opened Evidence
  import opened Dedup
  import opened DedupTheorems
  import opened Posture
  import PolicyBatch
  import PolicyTheorems

  datatype Scored = Scored(cluster: Cluster, score: nat, components: Components, asset: Asset)

  datatype AssessmentState = Complete | Limited | NoAssessment

  datatype PostureAssessment = PostureAssessment(
    state: AssessmentState, risk: Option<nat>, prioritized: seq<Scored>, coverage: Matrix)

  function AssetEndpoint(a: Asset): string { a.endpoint }

  function AssetAt(assets: map<string, Asset>, endpoint: string): Asset
  {
    if endpoint in assets then assets[endpoint] else Asset(endpoint, ExposureUnknown, CriticalityUnknown, BlastUnknown)
  }

  /** The score is that of the cluster on its asset, and its components are the named addends. */
  ghost predicate WellScored(s: Scored, assets: map<string, Asset>)
  {
    && s.cluster.uniqueOccurrences >= 1 && s.asset == AssetAt(assets, s.cluster.endpoint)
    && s.score == ComputeScore(s.cluster, s.asset) && s.components == ComponentsOf(s.cluster, s.asset)
  }

  function OutcomeRank(o: Outcome): int { if o == Negative then 0 else 1 }

  function PriorityKey(s: Scored): seq<Atom>
  {
    [N(0 - s.score), N(OutcomeRank(s.cluster.outcome)), N(3 - SeverityRank(s.cluster.severity)),
     S(s.cluster.code), S(s.cluster.endpoint), S(s.cluster.id)]
  }

  function ClusterIn(s: Scored): Cluster { s.cluster }

  function StateOfCoverage(c: Counts): AssessmentState
  {
    if c.applicable == 0 then NoAssessment else if c.unknown > 0 || c.unseen > 0 then Limited else Complete
  }

  function HighestScore(findings: seq<Scored>): (r: nat)
    requires findings != []
    ensures exists s :: s in findings && s.score == r
    ensures forall s :: s in findings ==> s.score <= r
  {
    assert findings == [findings[0]] + findings[1..];
    assert findings[0] in findings;
    if |findings| == 1 then findings[0].score
    else Max(findings[0].score, HighestScore(findings[1..]))
  }

  function RiskOf(state: AssessmentState, findings: seq<Scored>): Option<nat>
  {
    if findings != [] then Some(HighestScore(findings)) else if state == Complete then Some(0) else None
  }

  /** What `score_findings` publishes for a list of findings and a list of checks. */
  ghost predicate Published(
    p: PostureAssessment, digest: Digest, findings: seq<Finding>, checks: seq<Check>, assets: map<string, Asset>)
  {
    && Tallied(p.coverage, checks)
    && p.state == StateOfCoverage(p.coverage.overall)
    && p.risk == RiskOf(p.state, p.prioritized)
    && multiset(Map(ClusterIn, p.prioritized)) == multiset(Clusters(digest, findings))
    && SortedBy(ByKey(PriorityKey), p.prioritized)
    && forall s :: s in p.prioritized ==> WellScored(s, assets)
  }

  method ScoreClusters(clusters: seq<Cluster>, assets: map<string, Asset>) returns (scored: seq<Scored>)
    requires forall c :: c in clusters ==> c.uniqueOccurrences >= 1
    ensures Map(ClusterIn, scored) == clusters
    ensures forall s :: s in scored ==> WellScored(s, assets)
  {
    scored := [];
    for i := 0 to |clusters|
      invariant Map(ClusterIn, scored) == clusters[..i]
      invariant forall s :: s in scored ==> WellScored(s, assets)
    {
      var c := clusters[i];
      assert c in clusters;
      var asset := AssetAt(assets, c.endpoint);
      var one := Scored(c, ComputeScore(c, asset), ComponentsOf(c, asset), asset);
      MapConcat(ClusterIn, scored, [one]);
      scored := scored + [one];
    }
  }

  method ScoreFindings(digest: Digest, findings: seq<Finding>, checks: seq<Check>, inventory: seq<Asset>)
    returns (p: PostureAssessment)
    ensures Published(p, digest, findings, checks, PolicyBatch.IndexLast(AssetEndpoint, inventory))
  {
    var assets := PolicyBatch.BuildIndexLast(AssetEndpoint, inventory);
    var clusters := DedupFindings(digest, findings);
    RecurrencesAddUp(digest, findings);
    var scored := ScoreClusters(clusters, assets);
    p := BuildPosture(scored, checks);
    MapForgetsOrder(ClusterIn, p.prioritized, scored);
    SameMembers(p.prioritized, scored);
  }

  method BuildPosture(scored: seq<Scored>, checks: seq<Check>) returns (p: PostureAssessment)
    ensures Tallied(p.coverage, checks) && p.state == StateOfCoverage(p.coverage.overall)
    ensures p.risk == RiskOf(p.state, p.prioritized)
    ensures multiset(p.prioritized) == multiset(scored) && SortedBy(ByKey(PriorityKey), p.prioritized)
  {
    var ordered := SortBy(ByKey(PriorityKey), scored);
    ByKeyOrder(PriorityKey);
    SortSorted(ByKey(PriorityKey), scored);
    var coverage := AggregateCoverage(checks);
    var state := StateOfCoverage(coverage.overall);
    p := PostureAssessment(state, RiskOf(state, ordered), ordered, coverage);
  }

  // ---------- What the risk score means ----------

  predicate Undecided(c: Check) { c.outcome == Unknown || c.outcome == Unseen }

  lemma SizeZero(q: Check -> bool, checks: seq<Check>)
    ensures Size(q, checks) == 0 <==> forall c :: c in checks ==> !q(c)
  {
    HasMember(Filter(q, checks));
  }

  /** The assessment is complete exactly when something was checked and nothing stayed undecided. */
  lemma StateMeans(m: Matrix, checks: seq<Check>)
    requires Tallied(m, checks)
    ensures StateOfCoverage(m.overall) == NoAssessment <==> checks == []
    ensures StateOfCoverage(m.overall) == Complete <==>
            checks != [] && forall c :: c in checks ==> c.outcome == Passed || c.outcome == Failed
  {
    SizeZero(All, checks);
    SizeZero(Select(All, Unknown), checks);
    SizeZero(Select(All, Unseen), checks);
    HasMember(checks);
    assert forall c :: Undecided(c) <==> Select(All, Unknown)(c) || Select(All, Unseen)(c);
    assert forall c :: All(c);
  }

  lemma NoClusters(
    p: PostureAssessment, digest: Digest, findings: seq<Finding>, checks: seq<Check>, assets: map<string, Asset>)
    requires Published(p, digest, findings, checks, assets)
    ensures p.prioritized == [] <==> findings == []
  {
    RecurrencesAddUp(digest, findings);
    SameMembers(Map(ClusterIn, p.prioritized), Clusters(digest, findings));
  }

  lemma KeyGivesScore(s: Scored, t: Scored)
    requires ByKey(PriorityKey)(s, t)
    ensures t.score <= s.score
  {
    assert KeyLe(PriorityKey(s), PriorityKey(t));
    assert AtomLe(PriorityKey(s)[0], PriorityKey(t)[0]);
    assert PriorityKey(s)[0] == N(0 - s.score) && PriorityKey(t)[0] == N(0 - t.score);
  }

  /** Priority order puts the highest score first. */
  lemma TopScore(xs: seq<Scored>)
    requires xs != [] && SortedBy(ByKey(PriorityKey), xs)
    ensures HighestScore(xs) == xs[0].score
  {
    forall s | s in xs ensures s.score <= xs[0].score {
      var i :| 0 <= i < |xs| && xs[i] == s;
      if i > 0 {
        KeyGivesScore(xs[0], xs[i]);
      }
    }
    assert xs[0] in xs;
  }

  lemma LaterAtom(s: Scored, t: Scored, k: nat)
    requires k < 6 && ByKey(PriorityKey)(s, t) && PriorityKey(s)[..k] == PriorityKey(t)[..k]
    ensures AtomLe(PriorityKey(s)[k], PriorityKey(t)[k])
  {
    KeyLeAfter(PriorityKey(s), PriorityKey(t), k);
  }

  /** Among equal scores negative clusters come first, and among these the more severe ones. */
  lemma PriorityMeans(s: Scored, t: Scored)
    requires ByKey(PriorityKey)(s, t) && s.score == t.score
    ensures t.cluster.outcome == Negative ==> s.cluster.outcome == Negative
    ensures s.cluster.outcome == t.cluster.outcome ==>
              && (t.cluster.severity == High ==> s.cluster.severity == High)
              && (t.cluster.severity == Medium ==> s.cluster.severity in {High, Medium})
              && (t.cluster.severity == Low ==> s.cluster.severity != Informational)
  {
    LaterAtom(s, t, 1);
    if s.cluster.outcome == t.cluster.outcome {
      LaterAtom(s, t, 2);
    }
  }

  /** A posture with a finding never has risk 0. */
  lemma FindingsWeigh(
    p: PostureAssessment, digest: Digest, findings: seq<Finding>, checks: seq<Check>, assets: map<string, Asset>)
    requires Published(p, digest, findings, checks, assets) && findings != []
    ensures p.risk.Some? && 4 <= p.risk.value <= 100
    ensures p.prioritized != [] && p.risk == Some(p.prioritized[0].score)
  {
    NoClusters(p, digest, findings, checks, assets);
    TopScore(p.prioritized);
    assert p.prioritized[0] in p.prioritized;
    assert WellScored(p.prioritized[0], assets);
  }

  /** What a risk score says about the findings and checks behind it. */
  ghost predicate RiskTells(risk: Option<nat>, findings: seq<Finding>, checks: seq<Check>)
  {
    && (risk == Some(0) <==> checks != [] && forall c :: c in checks ==> c.outcome == Passed)
    && (risk == None <==>
        findings == [] && (checks == [] || exists c :: c in checks && c.outcome in {Unknown, Unseen}))
    && (findings != [] <==> risk.Some? && risk.value > 0)
  }

  lemma RiskOfCorrespondence(
    p: PostureAssessment, digest: Digest, findings: seq<Finding>, checks: seq<Check>, assets: map<string, Asset>)
    requires Published(p, digest, findings, checks, assets) && PolicyTheorems.Corresponds(findings, checks)
    ensures RiskTells(p.risk, findings, checks)
  {
    PolicyTheorems.CorrespondenceMeans(findings, checks);
    StateMeans(p.coverage, checks);
    NoClusters(p, digest, findings, checks, assets);
    if findings != [] {
      FindingsWeigh(p, digest, findings, checks, assets);
    } else {
      forall c | c in checks ensures Undecided(c) <==> c.outcome != Passed {
      }
    }
  }

  /**
   End to end: the published risk score of a policy evaluation is 0 exactly when at least one check applied and all
   passed; it is absent exactly when there are no findings and coverage is empty or holds an undecided check; otherwise
   it is the positive score of the first prioritized finding.
   */
  lemma RiskMeans(input: PolicyBatch.Inputs, assets: map<string, Asset>, p: PostureAssessment)
    requires PolicyTheorems.AllAssert(input.pack.rules)
    requires Published(p, input.w.digest, PolicyBatch.Findings(input), PolicyBatch.Checks(input), assets)
    ensures RiskTells(p.risk, PolicyBatch.Findings(input), PolicyBatch.Checks(input))
  {
    PolicyTheorems.FindingsMatchChecks(input);
    RiskOfCorrespondence(p, input.w.digest, PolicyBatch.Findings(input), PolicyBatch.Checks(input), assets);
  }

  /** The engine's own findings meet the condition under which deduplication forgets their order. */
  lemma EngineFindingsDedup(input: PolicyBatch.Inputs, shuffled: seq<Finding>)
    requires PolicyTheorems.KeysUnique(input.ev) && PolicyTheorems.RuleIdsUnique(input.pack.rules)
    requires PolicyTheorems.AllAssert(input.pack.rules)
    requires PolicyTheorems.BarFreeIds(input.pack.rules) || PolicyTheorems.BarFreeKeys(input.ev)
    requires Injective(input.w.digest) && '|' !in input.packDigest
    requires multiset(shuffled) == multiset(PolicyBatch.Findings(input))
    ensures Clusters(input.w.digest, shuffled) == Clusters(input.w.digest, PolicyBatch.Findings(input))
  {
    var findings := PolicyBatch.Findings(input);
    EngineIdsDetermine(input, findings);
    forall f | f in findings ensures '|' !in f.packVersion {
      PolicyTheorems.FindingVersion(input, f);
    }
    DedupForgetsOrder(input.w.digest, findings, shuffled);
  }

  lemma EngineIdsDetermine(input: PolicyBatch.Inputs, findings: seq<Finding>)
    requires PolicyTheorems.KeysUnique(input.ev) && PolicyTheorems.RuleIdsUnique(input.pack.rules)
    requires PolicyTheorems.AllAssert(input.pack.rules)
    requires PolicyTheorems.BarFreeIds(input.pack.rules) || PolicyTheorems.BarFreeKeys(input.ev)
    requires Injective(input.w.digest) && findings == PolicyBatch.Findings(input)
    ensures IdsDetermine(findings)
  {
    forall f, g | f in findings && g in findings && f.id == g.id ensures f == g {
      PolicyTheorems.FindingIdsDetermine(input, f, g);
    }
  }

  /** The engine and the scorer in one run. */
  method AnalysePolicy(input: PolicyBatch.Inputs, inventory: seq<Asset>) returns (p: PostureAssessment)
    requires PolicyTheorems.AllAssert(input.pack.rules)
    ensures RiskTells(p.risk, PolicyBatch.Findings(input), PolicyBatch.Checks(input))
  {
    var findings, checks := PolicyBatch.EvaluateBatch(input);
    p := ScoreFindings(input.w.digest, findings, checks, inventory);
    RiskMeans(input, PolicyBatch.IndexLast(AssetEndpoint, inventory), p);
  }
}
