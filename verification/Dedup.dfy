/** Findings that share a code, an endpoint and a policy identity collapse into one cluster; nothing is dropped. */
module Dedup {
  import opened Prelude
  import opened Sorting
  import opened Keys
  import opened Evidence

  const MAX_MERGED_REFS := 1024

  datatype Group = Group(code: string, endpoint: string, profile: string, packVersion: string)

  datatype Occurrence = Occurrence(
    findingId: string, recordType: RecordType, recordKey: string, sessionUid: Option<string>)

  datatype Cluster = Cluster(
    id: string, code: string, outcome: Outcome, wording: Wording, severity: Severity, evaluationState: EvidenceState,
    basis: EvidenceState, profile: string, packVersion: string, effectiveFrom: int, effectiveUntil: Option<int>,
    evaluationTime: int, endpoint: string, recurrence: nat, uniqueOccurrences: nat, contributing: seq<string>,
    occurrences: seq<Occurrence>, references: seq<Reference>)

  type Digest = string -> string

  function GroupOf(f: Finding): Group { Group(f.code, f.endpoint, f.profile, f.packVersion) }

  function FindingId(f: Finding): string { f.id }

  function IdKey(f: Finding): seq<Atom> { [S(f.id)] }

  // ---------- One cluster ----------

  function UntilColon(s: string): string
  {
    if s == [] || s[0] == ':' then [] else [s[0]] + UntilColon(s[1..])
  }

  function SessionOf(refs: seq<Reference>): Option<string>
  {
    var sessions := Filter((r: Reference) => r.recordType == SessionRecord, refs);
    if sessions != [] then Some(sessions[0].recordKey)
    else if refs == [] then None
    else if refs[0].recordType == CertificateRecord then Some(UntilColon(refs[0].recordKey))
    else Some(refs[0].recordKey)
  }

  function OccurrenceKey(f: Finding): string
  {
    if f.references == [] then "finding:" + f.id
    else RecordTypeName(f.references[0].recordType) + ":" + f.references[0].recordKey
  }

  function OccurrenceOf(f: Finding): Occurrence
  {
    if f.references == [] then Occurrence(f.id, SessionRecord, f.id, None)
    else Occurrence(f.id, f.references[0].recordType, f.references[0].recordKey, SessionOf(f.references))
  }

  function Ordered(members: seq<Finding>): seq<Finding> { SortBy(ByKey(IdKey), members) }

  /** The negative members if there are any, else all of them. */
  function Primary(members: seq<Finding>): (r: seq<Finding>)
    ensures members != [] ==> r != []
    ensures forall f :: f in r ==> f in members
  {
    var negatives := Filter(IsNegative, members);
    if negatives != [] then negatives else members
  }

  function SeverityRank(s: Severity): nat
  {
    match s
    case High => 3
    case Medium => 2
    case Low => 1
    case Informational => 0
  }

  function MaxSeverity(members: seq<Finding>): (r: Severity)
    requires members != []
    ensures exists f :: f in members && f.severity == r
    ensures forall f :: f in members ==> SeverityRank(f.severity) <= SeverityRank(r)
  {
    if |members| == 1 then assert members[0] in members; members[0].severity
    else
      var rest := MaxSeverity(members[1..]);
      assert members == [members[0]] + members[1..];
      assert members[0] in members;
      if SeverityRank(members[0].severity) >= SeverityRank(rest) then members[0].severity else rest
  }

  function BasisOf(f: Finding): EvidenceState { f.basis }

  function Earliest(members: seq<Finding>): int
    requires members != []
  {
    if |members| == 1 then members[0].effectiveFrom else Min(members[0].effectiveFrom, Earliest(members[1..]))
  }

  function Latest(members: seq<Finding>): int
    requires members != []
  {
    if |members| == 1 then members[0].evaluationTime else Max(members[0].evaluationTime, Latest(members[1..]))
  }

  function ReferencesOf(f: Finding): seq<Reference> { f.references }

  function MergeKey(r: Reference): seq<Atom>
  {
    [S(RecordTypeName(r.recordType)), S(r.recordKey), S(r.fieldPath), S(StateName(r.state)),
     N(if r.frame.Some? then r.frame.value else 0)]
  }

  function AllMerged(members: seq<Finding>): seq<Reference>
  {
    SortBy(ByKey(MergeKey), Firsts(FlatMap(ReferencesOf, members)))
  }

  function MergedReferences(members: seq<Finding>): seq<Reference>
  {
    var merged := AllMerged(members);
    if |merged| <= MAX_MERGED_REFS then merged else merged[..MAX_MERGED_REFS]
  }

  /** The dictionary of references, keyed by all their fields. */
  method MergeReferences(members: seq<Finding>) returns (refs: seq<Reference>)
    ensures refs == MergedReferences(members)
  {
    var unique: seq<Reference> := [];
    for i := 0 to |members|
      invariant unique == Firsts(FlatMap(ReferencesOf, members[..i]))
    {
      FlatMapSnoc(ReferencesOf, members, i);
      unique := AddFirsts(FlatMap(ReferencesOf, members[..i]), members[i].references, unique);
    }
    assert members[..|members|] == members;
    refs := SortBy(ByKey(MergeKey), unique);
    refs := if |refs| <= MAX_MERGED_REFS then refs else refs[..MAX_MERGED_REFS];
  }

  /** What is hashed into the id of a cluster. */
  function AggregateMaterial(g: Group, ids: seq<string>): seq<string>
  {
    ["endpoint", g.code, g.endpoint, g.profile, g.packVersion] + ids
  }

  function StrKey(s: string): seq<Atom> { [S(s)] }

  function OccurrenceIdKey(o: Occurrence): seq<Atom> { [S(o.findingId)] }

  /** The cluster of members already in id order, given their merged references. */
  function ClusterWith(digest: Digest, ordered: seq<Finding>, references: seq<Reference>): Cluster
    requires ordered != []
  {
    var primary := Primary(ordered);
    var representative := SortBy(ByKey(IdKey), primary)[0];
    var outcome := if exists f :: f in ordered && IsNegative(f) then Negative else Inconclusive;
    Cluster(
      digest(Bars(AggregateMaterial(GroupOf(ordered[0]), SortBy(ByKey(StrKey), Map(FindingId, ordered))))),
      representative.code, outcome, representative.wording, MaxSeverity(primary),
      if outcome == Negative then Verified else Indeterminate,
      Weakest(Map(BasisOf, primary)), representative.profile, representative.packVersion,
      Earliest(ordered), representative.effectiveUntil, Latest(ordered), representative.endpoint,
      |ordered|, |Firsts(Map(OccurrenceKey, ordered))|, Map(FindingId, ordered),
      SortBy(ByKey(OccurrenceIdKey), Map(OccurrenceOf, ordered)), references)
  }

  function ClusterOf(digest: Digest, ordered: seq<Finding>): Cluster
    requires ordered != []
  {
    ClusterWith(digest, ordered, MergedReferences(ordered))
  }

  method BuildCluster(digest: Digest, members: seq<Finding>) returns (c: Cluster)
    requires members != []
    ensures c == ClusterOf(digest, Ordered(members))
  {
    var ordered := Ordered(members);
    var references := MergeReferences(ordered);
    c := ClusterWith(digest, ordered, references);
  }

  function ClustersOf(digest: Digest, members: seq<Finding>): seq<Cluster>
  {
    if members == [] then [] else [ClusterOf(digest, Ordered(members))]
  }

  // ---------- All clusters ----------

  function Members(findings: seq<Finding>, g: Group): seq<Finding>
  {
    Filter((f: Finding) => GroupOf(f) == g, findings)
  }

  function Groups(findings: seq<Finding>): seq<Group> { Firsts(Map(GroupOf, findings)) }

  function ClusterKey(c: Cluster): seq<Atom> { [S(c.code), S(c.endpoint), S(c.profile), S(c.id)] }

  function RawClusters(digest: Digest, findings: seq<Finding>): seq<Cluster>
  {
    FlatMap(g => ClustersOf(digest, Members(findings, g)), Groups(findings))
  }

  function Clusters(digest: Digest, findings: seq<Finding>): seq<Cluster>
  {
    SortBy(ByKey(ClusterKey), RawClusters(digest, findings))
  }

  function MembersIn(findings: seq<Finding>): Group -> seq<Finding> { g => Members(findings, g) }

  /** The dictionary of groups and its key order once `findings` have been entered. */
  ghost predicate Grouped(findings: seq<Finding>, order: seq<Group>, grouped: map<Group, seq<Finding>>)
  {
    order == Groups(findings) && Dictionary(order, grouped, MembersIn(findings))
  }

  lemma GroupsSnoc(findings: seq<Finding>, n: nat)
    requires n < |findings|
    ensures Groups(findings[..n + 1]) ==
            var order := Groups(findings[..n]);
            if GroupOf(findings[n]) in order then order else order + [GroupOf(findings[n])]
  {
    var gs := Map(GroupOf, findings);
    assert Map(GroupOf, findings[..n + 1]) == gs[..n + 1] && Map(GroupOf, findings[..n]) == gs[..n];
    FirstsSnoc(gs, n);
  }

  lemma {:induction false} MembersNonempty(findings: seq<Finding>, g: Group)
    ensures g in Map(GroupOf, findings) <==> Members(findings, g) != []
  {
    if findings != [] {
      MembersNonempty(findings[1..], g);
      MapFirst(GroupOf, findings);
    }
  }

  lemma NoMembers(findings: seq<Finding>, g: Group)
    ensures g in Groups(findings) <==> Members(findings, g) != []
  {
    MembersNonempty(findings, g);
    FirstsMembers(Map(GroupOf, findings));
  }

  lemma MembersSnoc(findings: seq<Finding>, n: nat, h: Group)
    requires n < |findings|
    ensures Members(findings[..n + 1], h) ==
            if h != GroupOf(findings[n]) then Members(findings[..n], h)
            else if h in Groups(findings[..n]) then Members(findings[..n], h) + [findings[n]]
            else [findings[n]]
  {
    FilterSnoc((f: Finding) => GroupOf(f) == h, findings, n);
    NoMembers(findings[..n], h);
  }

  lemma GroupedNext(findings: seq<Finding>, n: nat, order: seq<Group>, grouped: map<Group, seq<Finding>>)
    requires n < |findings| && Grouped(findings[..n], order, grouped)
    ensures var g := GroupOf(findings[n]);
            if g in grouped then Grouped(findings[..n + 1], order, grouped[g := grouped[g] + [findings[n]]])
            else Grouped(findings[..n + 1], order + [g], grouped[g := [findings[n]]])
  {
    var g, before, after := GroupOf(findings[n]), findings[..n], findings[..n + 1];
    GroupsSnoc(findings, n);
    MembersSnoc(findings, n, g);
    forall h | h in order ensures h != g ==> MembersIn(after)(h) == MembersIn(before)(h) {
      MembersSnoc(findings, n, h);
    }
    DictionaryPut(order, grouped, MembersIn(before), g, Groups(after), MembersIn(after));
  }

  method DedupFindings(digest: Digest, findings: seq<Finding>) returns (clusters: seq<Cluster>)
    ensures clusters == Clusters(digest, findings)
  {
    var grouped: map<Group, seq<Finding>>, order: seq<Group> := map[], [];
    for i := 0 to |findings|
      invariant Grouped(findings[..i], order, grouped)
    {
      GroupedNext(findings, i, order, grouped);
      var g := GroupOf(findings[i]);
      if g in grouped {
        grouped := grouped[g := grouped[g] + [findings[i]]];
      } else {
        grouped, order := grouped[g := [findings[i]]], order + [g];
      }
    }
    assert findings[..|findings|] == findings;
    clusters := [];
    ghost var f := g => ClustersOf(digest, Members(findings, g));
    for i := 0 to |order|
      invariant clusters == FlatMap(f, order[..i])
    {
      FlatMapSnoc(f, order, i);
      assert order[i] in grouped;
      NoMembers(findings, order[i]);
      var cluster := BuildCluster(digest, grouped[order[i]]);
      clusters := clusters + [cluster];
    }
    assert order[..|order|] == order;
    clusters := SortBy(ByKey(ClusterKey), clusters);
  }
}
