/** Deduplication is a partition of its input and does not depend on the order of the input. */
module DedupTheorems {
  import opened Prelude
  import opened Sorting
  import opened Keys
  import opened Evidence
  import opened Dedup

  // ---------- Partition ----------

  lemma {:induction false} FilterSplit(p: Finding -> bool, q: Finding -> bool, r: Finding -> bool, xs: seq<Finding>)
    requires forall x :: r(x) <==> p(x) || q(x)
    requires forall x :: !(p(x) && q(x))
    ensures multiset(Filter(r, xs)) == multiset(Filter(p, xs)) + multiset(Filter(q, xs))
  {
    if xs != [] {
      FilterSplit(p, q, r, xs[1..]);
    }
  }

  predicate InGroups(f: Finding, gs: seq<Group>) { GroupOf(f) in gs }

  /** The groups in `gs` hold exactly the findings whose group is in `gs`. */
  lemma {:induction false} GroupsPartition(findings: seq<Finding>, gs: seq<Group>)
    requires Distinct(gs)
    ensures multiset(FlatMap(g => Members(findings, g), gs)) == multiset(Filter(f => InGroups(f, gs), findings))
  {
    if gs == [] {
      FilterNone(f => InGroups(f, gs), findings);
    } else {
      var rest := gs[1..];
      assert gs == [gs[0]] + rest && gs[0] !in rest;
      GroupsPartition(findings, rest);
      FilterSplit((f: Finding) => GroupOf(f) == gs[0], f => InGroups(f, rest), f => InGroups(f, gs), findings);
    }
  }

  lemma {:induction false} FilterNone(p: Finding -> bool, xs: seq<Finding>)
    requires forall x :: x in xs ==> !p(x)
    ensures Filter(p, xs) == []
  {
    if xs != [] {
      FilterNone(p, xs[1..]);
    }
  }

  lemma MembersPartition(findings: seq<Finding>)
    ensures multiset(FlatMap(g => Members(findings, g), Groups(findings))) == multiset(findings)
  {
    var gs := Groups(findings);
    var keys := Map(GroupOf, findings);
    FirstsMembers(keys);
    GroupsPartition(findings, gs);
    forall f | f in findings ensures InGroups(f, gs) {
      var i :| 0 <= i < |findings| && findings[i] == f;
      assert keys[i] in keys;
    }
    FilterAll(f => InGroups(f, gs), findings);
  }

  function Contributing(c: Cluster): seq<string> { c.contributing }

  lemma {:induction false} IdsOfGroups(digest: Digest, findings: seq<Finding>, gs: seq<Group>)
    ensures multiset(FlatMap(Contributing, FlatMap(g => ClustersOf(digest, Members(findings, g)), gs))) ==
            multiset(Map(FindingId, FlatMap(g => Members(findings, g), gs)))
  {
    if gs != [] {
      var f := g => ClustersOf(digest, Members(findings, g));
      var h := g => Members(findings, g);
      IdsOfGroups(digest, findings, gs[1..]);
      FlatMapAppend(Contributing, f(gs[0]), FlatMap(f, gs[1..]));
      IdsOfGroup(digest, h(gs[0]));
      MapConcat(FindingId, h(gs[0]), FlatMap(h, gs[1..]));
    }
  }

  lemma OfOneCluster(c: Cluster)
    ensures FlatMap(Contributing, [c]) == c.contributing
  {
    assert [c][1..] == [];
    assert FlatMap(Contributing, [c]) == Contributing(c) + FlatMap(Contributing, []);
  }

  lemma ContributingIds(digest: Digest, ordered: seq<Finding>)
    requires ordered != []
    ensures ClusterOf(digest, ordered).contributing == Map(FindingId, ordered)
  {
  }

  lemma IdsOfGroup(digest: Digest, members: seq<Finding>)
    ensures multiset(FlatMap(Contributing, ClustersOf(digest, members))) == multiset(Map(FindingId, members))
  {
    if members != [] {
      OfOneCluster(ClusterOf(digest, Ordered(members)));
      ContributingIds(digest, Ordered(members));
      MapForgetsOrder(FindingId, Ordered(members), members);
    }
  }

  /** Every finding contributes to exactly one cluster, once. */
  lemma EveryFindingIsKept(digest: Digest, findings: seq<Finding>)
    ensures multiset(FlatMap(Contributing, Clusters(digest, findings))) == multiset(Map(FindingId, findings))
  {
    var raw := RawClusters(digest, findings);
    FlatMapForgetsOrder(Contributing, Contributing, Clusters(digest, findings), raw);
    IdsOfGroups(digest, findings, Groups(findings));
    MembersPartition(findings);
    MapForgetsOrder(FindingId, FlatMap(g => Members(findings, g), Groups(findings)), findings);
  }

  function TotalRecurrence(cs: seq<Cluster>): nat
  {
    if cs == [] then 0 else cs[0].recurrence + TotalRecurrence(cs[1..])
  }

  lemma {:induction false} TotalIsLength(cs: seq<Cluster>)
    requires forall c :: c in cs ==> c.recurrence == |c.contributing|
    ensures TotalRecurrence(cs) == |FlatMap(Contributing, cs)|
  {
    if cs != [] {
      TotalIsLength(cs[1..]);
    }
  }

  lemma OnlyCluster(digest: Digest, members: seq<Finding>, c: Cluster)
    requires c in ClustersOf(digest, members)
    ensures members != [] && c == ClusterOf(digest, Ordered(members))
  {
  }

  /** Where a cluster comes from. */
  lemma ClusterOrigin(digest: Digest, findings: seq<Finding>, c: Cluster) returns (g: Group)
    requires c in Clusters(digest, findings)
    ensures g in Groups(findings) && Members(findings, g) != [] && c == ClusterOf(digest, Ordered(Members(findings, g)))
  {
    SortMembers(ByKey(ClusterKey), RawClusters(digest, findings));
    g := FlatMapOrigin(g => ClustersOf(digest, Members(findings, g)), Groups(findings), c);
    OnlyCluster(digest, Members(findings, g), c);
  }

  lemma ClusterCounts(digest: Digest, ordered: seq<Finding>)
    requires ordered != []
    ensures var c := ClusterOf(digest, ordered);
            1 <= c.uniqueOccurrences <= c.recurrence == |c.contributing|
  {
    FirstsMembers(Map(OccurrenceKey, ordered));
  }

  /** Recurrences add up to the input, and a cluster has at least one and at most `recurrence` distinct occurrences. */
  lemma RecurrencesAddUp(digest: Digest, findings: seq<Finding>)
    ensures TotalRecurrence(Clusters(digest, findings)) == |findings|
    ensures forall c :: c in Clusters(digest, findings) ==> 1 <= c.uniqueOccurrences <= c.recurrence == |c.contributing|
    ensures Clusters(digest, findings) == [] <==> findings == []
  {
    var cs := Clusters(digest, findings);
    forall c | c in cs ensures 1 <= c.uniqueOccurrences <= c.recurrence == |c.contributing| {
      var g := ClusterOrigin(digest, findings, c);
      ClusterCounts(digest, Ordered(Members(findings, g)));
    }
    TotalIsLength(cs);
    EveryFindingIsKept(digest, findings);
    assert |multiset(FlatMap(Contributing, cs))| == |FlatMap(Contributing, cs)|;
    assert |multiset(Map(FindingId, findings))| == |findings|;
    if cs != [] {
      assert cs[0] in cs;
    }
  }

  // ---------- What a cluster says of its members ----------

  lemma ClusterFields(digest: Digest, ordered: seq<Finding>)
    requires ordered != []
    ensures var c, primary := ClusterOf(digest, ordered), Primary(ordered);
            && (c.outcome == Negative <==> exists f :: f in ordered && IsNegative(f))
            && c.basis == Weakest(Map(BasisOf, primary)) && c.severity == MaxSeverity(primary)
  {
  }

  lemma PrimaryMeans(ordered: seq<Finding>, outcome: Outcome)
    requires outcome == Negative <==> exists f :: f in ordered && IsNegative(f)
    ensures forall f :: f in Primary(ordered) <==> f in ordered && f.outcome == outcome
  {
    HasMember(Filter(IsNegative, ordered));
  }

  /** `basis` is the basis of some member, and no member has a weaker one. */
  ghost predicate WeakestBasis(members: seq<Finding>, outcome: Outcome, basis: EvidenceState)
  {
    && (exists f :: f in members && f.outcome == outcome && f.basis == basis)
    && forall f :: f in members && f.outcome == outcome ==> StateRank(basis) <= StateRank(f.basis)
  }

  ghost predicate HighestSeverity(members: seq<Finding>, outcome: Outcome, severity: Severity)
  {
    && (exists f :: f in members && f.outcome == outcome && f.severity == severity)
    && forall f :: f in members && f.outcome == outcome ==> SeverityRank(f.severity) <= SeverityRank(severity)
  }

  lemma PrimarySpeaks(primary: seq<Finding>, members: seq<Finding>, outcome: Outcome)
    requires primary != [] && forall f :: f in primary <==> f in members && f.outcome == outcome
    ensures WeakestBasis(members, outcome, Weakest(Map(BasisOf, primary)))
    ensures HighestSeverity(members, outcome, MaxSeverity(primary))
  {
    var basis := Weakest(Map(BasisOf, primary));
    MapMembers(BasisOf, primary, basis);
    forall f | f in primary ensures StateRank(basis) <= StateRank(f.basis) {
      MapMembers(BasisOf, primary, f.basis);
      assert BasisOf(f) == f.basis;
    }
  }

  /** A cluster is negative as soon as one member is, and speaks for the members that share its outcome. */
  lemma ClusterSpeaksForMembers(digest: Digest, members: seq<Finding>)
    requires members != []
    ensures var c := ClusterOf(digest, Ordered(members));
            && (c.outcome == Negative <==> exists f :: f in members && f.outcome == Negative)
            && WeakestBasis(members, c.outcome, c.basis) && HighestSeverity(members, c.outcome, c.severity)
  {
    var ordered := Ordered(members);
    SortMembers(ByKey(IdKey), members);
    ClusterFields(digest, ordered);
    var outcome := ClusterOf(digest, ordered).outcome;
    PrimaryMeans(ordered, outcome);
    PrimarySpeaks(Primary(ordered), members, outcome);
  }

  /** The order of severities, one by one. */
  lemma HighestSeverityMeans(members: seq<Finding>)
    requires members != []
    ensures MaxSeverity(members) ==
            if exists f :: f in members && f.severity == High then High
            else if exists f :: f in members && f.severity == Medium then Medium
            else if exists f :: f in members && f.severity == Low then Low
            else Informational
  {
    assert SeverityRank(High) > SeverityRank(Medium) > SeverityRank(Low) > SeverityRank(Informational);
  }

  lemma {:induction false} EarliestMeans(members: seq<Finding>)
    requires members != []
    ensures exists f :: f in members && f.effectiveFrom == Earliest(members)
    ensures forall f :: f in members ==> Earliest(members) <= f.effectiveFrom
  {
    assert members == [members[0]] + members[1..];
    assert members[0] in members;
    if |members| > 1 {
      EarliestMeans(members[1..]);
    }
  }

  lemma {:induction false} LatestMeans(members: seq<Finding>)
    requires members != []
    ensures exists f :: f in members && f.evaluationTime == Latest(members)
    ensures forall f :: f in members ==> f.evaluationTime <= Latest(members)
  {
    assert members == [members[0]] + members[1..];
    assert members[0] in members;
    if |members| > 1 {
      LatestMeans(members[1..]);
    }
  }

  lemma LeastId(f: Finding, g: Finding)
    requires ByKey(IdKey)(f, g)
    ensures StrLe(f.id, g.id)
  {
    KeyLeAfter(IdKey(f), IdKey(g), 0);
  }

  lemma RepresentativeIs(digest: Digest, ordered: seq<Finding>, primary: seq<Finding>) returns (f: Finding)
    requires ordered != [] && primary == Primary(ordered)
    ensures f in primary && forall g :: g in primary ==> StrLe(f.id, g.id)
    ensures var c := ClusterOf(digest, ordered); c.wording == f.wording && c.effectiveUntil == f.effectiveUntil
  {
    var sorted := SortBy(ByKey(IdKey), primary);
    SortMembers(ByKey(IdKey), primary);
    ByKeyOrder(IdKey);
    SortSorted(ByKey(IdKey), primary);
    f := sorted[0];
    assert f in sorted;
    forall g | g in primary ensures StrLe(f.id, g.id) {
      var k :| 0 <= k < |sorted| && sorted[k] == g;
      if k == 0 {
        StrLeTotal(f.id, f.id);
      } else {
        LeastId(f, g);
      }
    }
  }

  /** It speaks in the words of the member of least id among those with its outcome. */
  lemma RepresentativeMeans(digest: Digest, members: seq<Finding>) returns (f: Finding)
    requires members != []
    ensures var c := ClusterOf(digest, Ordered(members));
            && f in members && f.outcome == c.outcome
            && (forall g :: g in members && g.outcome == c.outcome ==> StrLe(f.id, g.id))
            && c.wording == f.wording && c.effectiveUntil == f.effectiveUntil
            && (c.evaluationState == if c.outcome == Negative then Verified else Indeterminate)
  {
    var ordered := Ordered(members);
    SortMembers(ByKey(IdKey), members);
    ClusterFields(digest, ordered);
    PrimaryMeans(ordered, ClusterOf(digest, ordered).outcome);
    f := RepresentativeIs(digest, ordered, Primary(ordered));
  }

  /** A cluster spans its members: the earliest start of a rule and the latest evaluation. */
  lemma ClusterSpansMembers(digest: Digest, members: seq<Finding>)
    requires members != []
    ensures var c := ClusterOf(digest, Ordered(members));
            && (exists f :: f in members && f.effectiveFrom == c.effectiveFrom)
            && (exists f :: f in members && f.evaluationTime == c.evaluationTime)
            && forall f :: f in members ==> c.effectiveFrom <= f.effectiveFrom && f.evaluationTime <= c.evaluationTime
  {
    SortMembers(ByKey(IdKey), members);
    EarliestMeans(Ordered(members));
    LatestMeans(Ordered(members));
  }

  // ---------- What belongs to one cluster, and what is one occurrence ----------

  predicate SameGroup(f: Finding, h: Finding)
  {
    h.code == f.code && h.endpoint == f.endpoint && h.profile == f.profile && h.packVersion == f.packVersion
  }

  lemma MembersAlike(findings: seq<Finding>, f: Finding)
    ensures Members(findings, GroupOf(f)) == Filter(h => SameGroup(f, h), findings)
  {
    FilterAlike((h: Finding) => GroupOf(h) == GroupOf(f), h => SameGroup(f, h), findings);
  }

  lemma ContributingMembers(digest: Digest, members: seq<Finding>)
    requires members != []
    ensures multiset(ClusterOf(digest, Ordered(members)).contributing) == multiset(Map(FindingId, members))
  {
    ContributingIds(digest, Ordered(members));
    MapForgetsOrder(FindingId, Ordered(members), members);
  }

  /** A cluster holds all findings of one code, endpoint, profile and policy version, and no other. */
  lemma ClusterHolds(digest: Digest, findings: seq<Finding>, c: Cluster) returns (f: Finding)
    requires c in Clusters(digest, findings)
    ensures f in findings && c.code == f.code && c.endpoint == f.endpoint && c.profile == f.profile
    ensures multiset(c.contributing) == multiset(Map(FindingId, Filter(h => SameGroup(f, h), findings)))
  {
    var g := ClusterOrigin(digest, findings, c);
    var members := Members(findings, g);
    f := members[0];
    assert f in members;
    var _ := ClusterGroup(digest, findings, g);
    ContributingMembers(digest, members);
    MembersAlike(findings, f);
  }

  lemma {:induction false} ColonSplits(a: string, x: string)
    requires ':' !in a
    ensures UntilColon(a + ":" + x) == a
  {
    if a != [] {
      assert a[0] in a && forall c :: c in a[1..] ==> c in a;
      assert (a + ":" + x)[1..] == a[1..] + ":" + x;
      ColonSplits(a[1..], x);
    }
  }

  lemma KeyParts(a: string, x: string, b: string, y: string)
    requires ':' !in a && ':' !in b
    ensures a + ":" + x == b + ":" + y <==> a == b && x == y
  {
    if a + ":" + x == b + ":" + y {
      ColonSplits(a, x);
      ColonSplits(b, y);
      assert x == (a + ":" + x)[|a| + 1..] && y == (b + ":" + y)[|b| + 1..];
    }
  }

  /** The name before the colon of an occurrence key. */
  function Naming(f: Finding): string
  {
    if f.references == [] then "finding" else RecordTypeName(f.references[0].recordType)
  }

  lemma NamingIsPlain(f: Finding)
    ensures ':' !in Naming(f)
  {
  }

  lemma NamesDiffer(t: RecordType, u: RecordType)
    ensures RecordTypeName(t) == RecordTypeName(u) <==> t == u
    ensures RecordTypeName(t) != "finding"
  {
  }

  /** Two findings are one occurrence iff they rest on the same record; without references each stands alone. */
  lemma OneOccurrence(f: Finding, g: Finding)
    ensures OccurrenceKey(f) == OccurrenceKey(g) <==>
            || (f.references == [] && g.references == [] && f.id == g.id)
            || (&& f.references != [] && g.references != []
                && f.references[0].recordType == g.references[0].recordType
                && f.references[0].recordKey == g.references[0].recordKey)
  {
    var x := if f.references == [] then f.id else f.references[0].recordKey;
    var y := if g.references == [] then g.id else g.references[0].recordKey;
    NamingIsPlain(f);
    NamingIsPlain(g);
    assert OccurrenceKey(f) == Naming(f) + ":" + x && OccurrenceKey(g) == Naming(g) + ":" + y;
    KeyParts(Naming(f), x, Naming(g), y);
    if f.references != [] {
      NamesDiffer(f.references[0].recordType, if g.references != [] then g.references[0].recordType else FlowRecord);
    } else if g.references != [] {
      NamesDiffer(g.references[0].recordType, FlowRecord);
    }
  }

  lemma {:induction false} DistinctSize(xs: seq<string>)
    requires Distinct(xs)
    ensures |xs| == |set x | x in xs|
  {
    if xs != [] {
      var last := |xs| - 1;
      DistinctSize(xs[..last]);
      assert xs == xs[..last] + [xs[last]];
      assert (set x | x in xs) == (set x | x in xs[..last]) + {xs[last]};
    }
  }

  /** Unique occurrences are the different keys among the members. */
  lemma OccurrencesCounted(digest: Digest, members: seq<Finding>)
    requires members != []
    ensures ClusterOf(digest, Ordered(members)).uniqueOccurrences == |set f | f in members :: OccurrenceKey(f)|
  {
    var ordered := Ordered(members);
    var keys := Map(OccurrenceKey, ordered);
    SortMembers(ByKey(IdKey), members);
    FirstsMembers(keys);
    DistinctSize(Firsts(keys));
    forall key ensures key in Firsts(keys) <==> key in set f | f in members :: OccurrenceKey(f) {
      MapMembers(OccurrenceKey, ordered, key);
    }
    assert (set x | x in Firsts(keys)) == set f | f in members :: OccurrenceKey(f);
  }

  /** An occurrence is the record of the first reference, or without references a session of the finding's own. */
  lemma OccurrenceMeans(f: Finding)
    ensures var o := OccurrenceOf(f);
            && o.findingId == f.id
            && (f.references == [] ==> o.recordType == SessionRecord && o.recordKey == f.id && o.sessionUid == None)
            && (f.references != [] ==>
                  && o.recordType == f.references[0].recordType && o.recordKey == f.references[0].recordKey
                  && o.sessionUid == SessionOf(f.references))
  {
  }

  lemma ClusterOccurrences(digest: Digest, ordered: seq<Finding>)
    requires ordered != []
    ensures ClusterOf(digest, ordered).occurrences == SortBy(ByKey(OccurrenceIdKey), Map(OccurrenceOf, ordered))
  {
  }

  /** Every member is listed as an occurrence of its cluster. */
  lemma OccurrencesListed(digest: Digest, members: seq<Finding>)
    requires members != []
    ensures multiset(ClusterOf(digest, Ordered(members)).occurrences) == multiset(Map(OccurrenceOf, members))
  {
    ClusterOccurrences(digest, Ordered(members));
    MapForgetsOrder(OccurrenceOf, Ordered(members), members);
  }

  lemma {:induction false} FirstKept(p: Reference -> bool, refs: seq<Reference>, i: nat)
    requires i < |refs| && p(refs[i]) && forall j :: 0 <= j < i ==> !p(refs[j])
    ensures Filter(p, refs) != [] && Filter(p, refs)[0] == refs[i]
  {
    if i > 0 {
      FirstKept(p, refs[1..], i - 1);
    }
  }

  /** The session of an occurrence is that of its first session reference. */
  lemma SessionMeans(refs: seq<Reference>, i: nat)
    requires i < |refs| && refs[i].recordType == SessionRecord
    requires forall j :: 0 <= j < i ==> refs[j].recordType != SessionRecord
    ensures SessionOf(refs) == Some(refs[i].recordKey)
  {
    FirstKept((r: Reference) => r.recordType == SessionRecord, refs, i);
  }

  /** Without one it is the first record's uid, which a certificate's key holds before its colon. */
  lemma NoSessionMeans(refs: seq<Reference>)
    requires forall r :: r in refs ==> r.recordType != SessionRecord
    ensures SessionOf(refs) ==
            if refs == [] then None
            else if refs[0].recordType in {FlowRecord, HandshakeRecord} then Some(refs[0].recordKey)
            else Some(UntilColon(refs[0].recordKey))
  {
    HasMember(Filter((r: Reference) => r.recordType == SessionRecord, refs));
  }

  // ---------- Order independence ----------

  ghost predicate IdsDetermine(findings: seq<Finding>)
  {
    forall f, g :: f in findings && g in findings && f.id == g.id ==> f == g
  }

  lemma OrderedForgetsOrder(xs: seq<Finding>, ys: seq<Finding>)
    requires multiset(xs) == multiset(ys) && IdsDetermine(xs)
    ensures Ordered(xs) == Ordered(ys) && (xs == [] <==> ys == [])
  {
    SameMembers(xs, ys);
    forall f, g | f in xs && g in xs && IdKey(f) == IdKey(g) ensures f == g {
      assert IdKey(f)[0] == IdKey(g)[0];
    }
    SortByKeyForgetsOrder(IdKey, xs, ys);
  }

  lemma ClustersOfForgetOrder(digest: Digest, xs: seq<Finding>, ys: seq<Finding>, g: Group)
    requires multiset(xs) == multiset(ys) && IdsDetermine(xs)
    ensures ClustersOf(digest, Members(xs, g)) == ClustersOf(digest, Members(ys, g))
  {
    FilterForgetsOrder((f: Finding) => GroupOf(f) == g, xs, ys);
    OrderedForgetsOrder(Members(xs, g), Members(ys, g));
  }

  lemma GroupsForgetOrder(xs: seq<Finding>, ys: seq<Finding>)
    requires multiset(xs) == multiset(ys)
    ensures multiset(Groups(xs)) == multiset(Groups(ys))
  {
    var a, b := Map(GroupOf, xs), Map(GroupOf, ys);
    MapForgetsOrder(GroupOf, xs, ys);
    SameMembers(a, b);
    FirstsMembers(a);
    FirstsMembers(b);
    DistinctPermutation(Firsts(a), Firsts(b));
  }

  /** The policy versions hold no bar, as their format of 64 hexadecimal digits demands. */
  predicate BarFreeVersions(findings: seq<Finding>) { forall f :: f in findings ==> '|' !in f.packVersion }

  lemma ClusterGroup(digest: Digest, findings: seq<Finding>, g: Group) returns (ids: seq<string>)
    requires Members(findings, g) != []
    ensures ids != []
    ensures var c := ClusterOf(digest, Ordered(Members(findings, g)));
            && c.id == digest(Bars(AggregateMaterial(g, ids)))
            && c.code == g.code && c.endpoint == g.endpoint && c.profile == g.profile
    ensures exists f :: f in findings && f.packVersion == g.packVersion
  {
    var members := Members(findings, g);
    var ordered := Ordered(members);
    SortMembers(ByKey(IdKey), members);
    assert ordered[0] in ordered && ordered[0] in members;
    ids := SortBy(ByKey(StrKey), Map(FindingId, ordered));
    RepresentativeGroup(digest, ordered, g);
  }

  lemma RepresentativeGroup(digest: Digest, ordered: seq<Finding>, g: Group)
    requires ordered != [] && forall f :: f in ordered ==> GroupOf(f) == g
    ensures var c := ClusterOf(digest, ordered); c.code == g.code && c.endpoint == g.endpoint && c.profile == g.profile
  {
    var primary := Primary(ordered);
    SortMembers(ByKey(IdKey), primary);
    var representative := SortBy(ByKey(IdKey), primary)[0];
    assert representative in SortBy(ByKey(IdKey), primary);
    assert representative in ordered;
  }

  /** Clusters that agree on code, endpoint and profile have different ids if their policy versions differ. */
  lemma MaterialGivesVersion(g: Group, ids: seq<string>, h: Group, jds: seq<string>)
    requires g.code == h.code && g.endpoint == h.endpoint && g.profile == h.profile && ids != [] && jds != []
    requires '|' !in g.packVersion && '|' !in h.packVersion
    requires Bars(AggregateMaterial(g, ids)) == Bars(AggregateMaterial(h, jds))
    ensures g == h
  {
    var a, b := AggregateMaterial(g, ids), AggregateMaterial(h, jds);
    SkipShared(a, b, 4);
    var c, d := a[4..], b[4..];
    BarsDetermine(c, d, 1);
    assert c[..1][0] == d[..1][0] && c[0] == a[4] && d[0] == b[4];
  }

  lemma ClusterKeyParts(c: Cluster, d: Cluster)
    requires ClusterKey(c) == ClusterKey(d)
    ensures c.code == d.code && c.endpoint == d.endpoint && c.profile == d.profile && c.id == d.id
  {
    var a, b := ClusterKey(c), ClusterKey(d);
    assert a[0] == b[0] && a[1] == b[1] && a[2] == b[2] && a[3] == b[3];
  }

  lemma ClustersKeyed(digest: Digest, findings: seq<Finding>)
    requires Injective(digest) && BarFreeVersions(findings)
    ensures KeyedBy(ClusterKey, RawClusters(digest, findings))
  {
    var raw := RawClusters(digest, findings);
    SortMembers(ByKey(ClusterKey), raw);
    forall c, d | c in raw && d in raw && ClusterKey(c) == ClusterKey(d) ensures c == d {
      ClusterKeyParts(c, d);
      var g := ClusterOrigin(digest, findings, c);
      var h := ClusterOrigin(digest, findings, d);
      var ids := ClusterGroup(digest, findings, g);
      var jds := ClusterGroup(digest, findings, h);
      MaterialGivesVersion(g, ids, h, jds);
    }
  }

  /** The whole result, merged references and weakest basis included, is independent of the input order. */
  lemma DedupForgetsOrder(digest: Digest, xs: seq<Finding>, ys: seq<Finding>)
    requires multiset(xs) == multiset(ys) && IdsDetermine(xs) && Injective(digest) && BarFreeVersions(xs)
    ensures Clusters(digest, xs) == Clusters(digest, ys)
  {
    GroupsForgetOrder(xs, ys);
    var f, h := g => ClustersOf(digest, Members(xs, g)), g => ClustersOf(digest, Members(ys, g));
    forall g ensures f(g) == h(g) {
      ClustersOfForgetOrder(digest, xs, ys, g);
    }
    FlatMapForgetsOrder(f, h, Groups(xs), Groups(ys));
    ClustersKeyed(digest, xs);
    SortByKeyForgetsOrder(ClusterKey, RawClusters(digest, xs), RawClusters(digest, ys));
  }

  /** Up to the cap, the merged references are those of the members, once each and in order. */
  lemma MergeKeepsReferences(members: seq<Finding>)
    ensures Distinct(AllMerged(members)) && SortedBy(ByKey(MergeKey), AllMerged(members))
    ensures forall r :: r in AllMerged(members) <==> exists f :: f in members && r in f.references
    ensures MergedReferences(members) <= AllMerged(members)
    ensures |MergedReferences(members)| == Min(1024, |AllMerged(members)|)
  {
    var all := FlatMap(ReferencesOf, members);
    var unique := Firsts(all);
    FirstsMembers(all);
    ByKeyOrder(MergeKey);
    SortSorted(ByKey(MergeKey), unique);
    SortMembers(ByKey(MergeKey), unique);
    DistinctForgetsOrder(unique, AllMerged(members));
    forall r ensures r in AllMerged(members) <==> exists f :: f in members && r in f.references {
      FlatMapMember(ReferencesOf, members, r);
    }
  }
}
