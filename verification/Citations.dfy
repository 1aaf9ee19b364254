/** The evidence references of a finding, and its basis state. */
module Citations {
  import opened Prelude
  import opened Sorting
  import opened Keys
  import opened Evidence
  import opened RuleEngine

  type Pair = (string, EvidenceState)

  /** Every path the rule reads with the state of its evidence; a role-scoped rule also rests on an inference. */
  function Pairs(v: View, rule: Rule): seq<Pair>
  {
    Map((p: Predicate) => (p.path, v.state(p)), rule.wheres + rule.assertion)
    + if rule.roles != [] then [("derived.service_role", Inferred)] else []
  }

  function Path(p: Pair): string { p.0 }

  function State(p: Pair): EvidenceState { p.1 }

  function PathsOf(pairs: seq<Pair>): seq<string> { Firsts(Map(Path, pairs)) }

  /** The states recorded for one path. */
  function StatesAt(pairs: seq<Pair>, path: string): seq<EvidenceState>
  {
    if pairs == [] then []
    else (if pairs[0].0 == path then [pairs[0].1] else []) + StatesAt(pairs[1..], path)
  }

  function WeakestAt(pairs: seq<Pair>, path: string): EvidenceState
  {
    WeakestOrObserved(StatesAt(pairs, path))
  }

  lemma {:induction false} StatesAtMembers(pairs: seq<Pair>, path: string, s: EvidenceState)
    ensures s in StatesAt(pairs, path) <==> (path, s) in pairs
  {
    if pairs != [] {
      assert pairs == [pairs[0]] + pairs[1..];
      StatesAtMembers(pairs[1..], path, s);
    }
  }

  lemma {:induction false} StatesAtSnoc(pairs: seq<Pair>, n: nat, path: string)
    requires n < |pairs|
    ensures StatesAt(pairs[..n + 1], path) ==
            StatesAt(pairs[..n], path) + if pairs[n].0 == path then [pairs[n].1] else []
  {
    if n > 0 {
      StatesAtSnoc(pairs[1..], n - 1, path);
      assert pairs[..n + 1][1..] == pairs[1..][..n] && pairs[..n][1..] == pairs[1..][..n - 1];
    }
  }

  lemma PathMembers(pairs: seq<Pair>, path: string)
    ensures path in PathsOf(pairs) <==> StatesAt(pairs, path) != []
  {
    FirstsMembers(Map(Path, pairs));
    MapMembers(Path, pairs, path);
    if p :| p in pairs && Path(p) == path {
      StatesAtMembers(pairs, path, p.1);
    }
    if StatesAt(pairs, path) != [] {
      StatesAtMembers(pairs, path, StatesAt(pairs, path)[0]);
      assert Path((path, StatesAt(pairs, path)[0])) == path;
    }
  }

  /** Adding one pair lowers the state of its path and of no other. */
  lemma WeakestSnoc(pairs: seq<Pair>, n: nat, path: string)
    requires n < |pairs|
    requires path == pairs[n].0 || path in PathsOf(pairs[..n])
    ensures WeakestAt(pairs[..n + 1], path) ==
            if path != pairs[n].0 then WeakestAt(pairs[..n], path)
            else if path in PathsOf(pairs[..n]) && StateRank(WeakestAt(pairs[..n], path)) <= StateRank(pairs[n].1)
            then WeakestAt(pairs[..n], path)
            else pairs[n].1
  {
    PathMembers(pairs[..n], path);
    StatesAtSnoc(pairs, n, path);
    if path == pairs[n].0 {
      var before, state := StatesAt(pairs[..n], path), pairs[n].1;
      WeakestUnique(before + [state],
        if before != [] && StateRank(Weakest(before)) <= StateRank(state) then Weakest(before) else state);
    }
  }

  function ReferenceKey(r: Reference): seq<Atom>
  {
    [S(RecordTypeName(r.recordType)), S(r.recordKey), S(r.fieldPath)]
  }

  function ReferenceAt(pairs: seq<Pair>, recordType: RecordType, recordKey: string, path: string): Reference
  {
    Reference(recordType, recordKey, path, WeakestAt(pairs, path), None)
  }

  function UnsortedReferences(pairs: seq<Pair>, recordType: RecordType, recordKey: string): seq<Reference>
  {
    Map(path => ReferenceAt(pairs, recordType, recordKey, path), PathsOf(pairs))
  }

  /** One reference per path, with the weakest state recorded for it. */
  function References(pairs: seq<Pair>, recordType: RecordType, recordKey: string): seq<Reference>
  {
    SortBy(ByKey(ReferenceKey), UnsortedReferences(pairs, recordType, recordKey))
  }

  function WeakestIn(pairs: seq<Pair>): string -> EvidenceState { path => WeakestAt(pairs, path) }

  /** The dictionary and its key order once `pairs` have been entered. */
  ghost predicate Tallies(pairs: seq<Pair>, order: seq<string>, unique: map<string, EvidenceState>)
  {
    order == PathsOf(pairs) && Dictionary(order, unique, WeakestIn(pairs))
  }

  lemma PathsSnoc(pairs: seq<Pair>, n: nat)
    requires n < |pairs|
    ensures PathsOf(pairs[..n + 1]) ==
            var order := PathsOf(pairs[..n]); if pairs[n].0 in order then order else order + [pairs[n].0]
  {
    var paths := Map(Path, pairs);
    assert Map(Path, pairs[..n + 1]) == paths[..n + 1] && Map(Path, pairs[..n]) == paths[..n];
    FirstsSnoc(paths, n);
  }

  /** Entering one pair, for any functions that say what was and what is weakest. */
  lemma TallyPut(
    order: seq<string>, unique: map<string, EvidenceState>, was: string -> EvidenceState, path: string,
    state: EvidenceState, next: seq<string>, now: string -> EvidenceState)
    requires Dictionary(order, unique, was)
    requires next == if path in order then order else order + [path]
    requires forall q :: q in order && q != path ==> now(q) == was(q)
    requires now(path) == if path in order && StateRank(was(path)) <= StateRank(state) then was(path) else state
    ensures var weaker := path !in unique || StateRank(state) < StateRank(unique[path]);
            Dictionary(next, if weaker then unique[path := state] else unique, now)
  {
    DictionaryPut(order, unique, was, path, next, now);
    assert path in unique ==> unique[path := unique[path]] == unique;
  }

  lemma OtherPathsKept(pairs: seq<Pair>, n: nat, order: seq<string>)
    requires n < |pairs| && order == PathsOf(pairs[..n])
    ensures forall q :: q in order && q != pairs[n].0 ==> WeakestIn(pairs[..n + 1])(q) == WeakestIn(pairs[..n])(q)
    ensures var path, state, was := pairs[n].0, pairs[n].1, WeakestIn(pairs[..n]);
            WeakestIn(pairs[..n + 1])(path) ==
            if path in order && StateRank(was(path)) <= StateRank(state) then was(path) else state
  {
    WeakestSnoc(pairs, n, pairs[n].0);
    forall q | q in order && q != pairs[n].0 ensures WeakestIn(pairs[..n + 1])(q) == WeakestIn(pairs[..n])(q) {
      WeakestSnoc(pairs, n, q);
    }
  }

  lemma TallyNext(pairs: seq<Pair>, n: nat, order: seq<string>, unique: map<string, EvidenceState>)
    requires n < |pairs| && Tallies(pairs[..n], order, unique)
    ensures var path, state := pairs[n].0, pairs[n].1;
            var weaker := path !in unique || StateRank(state) < StateRank(unique[path]);
            Tallies(pairs[..n + 1], if path in order then order else order + [path],
              if weaker then unique[path := state] else unique)
  {
    PathsSnoc(pairs, n);
    OtherPathsKept(pairs, n, order);
    TallyPut(
      order, unique, WeakestIn(pairs[..n]), pairs[n].0, pairs[n].1, PathsOf(pairs[..n + 1]), WeakestIn(pairs[..n + 1]));
  }

  method Tally(pairs: seq<Pair>) returns (order: seq<string>, unique: map<string, EvidenceState>)
    ensures Tallies(pairs, order, unique)
  {
    unique, order := map[], [];
    for i := 0 to |pairs|
      invariant Tallies(pairs[..i], order, unique)
    {
      var path, state := pairs[i].0, pairs[i].1;
      TallyNext(pairs, i, order, unique);
      if path !in unique {
        unique, order := unique[path := state], order + [path];
        continue;
      }
      if StateRank(state) < StateRank(unique[path]) {
        unique := unique[path := state];
      }
    }
    assert pairs[..|pairs|] == pairs;
  }

  function ReferenceList(
    order: seq<string>, unique: map<string, EvidenceState>, recordType: RecordType, recordKey: string): seq<Reference>
    requires forall i :: 0 <= i < |order| ==> order[i] in unique
  {
    seq(|order|, i requires 0 <= i < |order| => Reference(recordType, recordKey, order[i], unique[order[i]], None))
  }

  method CollectReferences(v: View, rule: Rule, recordKey: string) returns (refs: seq<Reference>)
    ensures refs == References(Pairs(v, rule), rule.target, recordKey)
  {
    var pairs := Pairs(v, rule);
    var order, unique := Tally(pairs);
    TalliedReferences(pairs, order, unique, rule.target, recordKey);
    refs := SortBy(ByKey(ReferenceKey), ReferenceList(order, unique, rule.target, recordKey));
  }

  lemma TalliedReferences(
    pairs: seq<Pair>, order: seq<string>, unique: map<string, EvidenceState>, recordType: RecordType, recordKey: string)
    requires Tallies(pairs, order, unique)
    ensures forall i :: 0 <= i < |order| ==> order[i] in unique
    ensures ReferenceList(order, unique, recordType, recordKey) == UnsortedReferences(pairs, recordType, recordKey)
  {
  }

  /** The weakest state among the references. */
  function Basis(refs: seq<Reference>): EvidenceState
  {
    if refs == [] then Indeterminate else Weakest(Map((r: Reference) => r.state, refs))
  }

  lemma ReferenceMembers(pairs: seq<Pair>, recordType: RecordType, recordKey: string, r: Reference)
    ensures r in References(pairs, recordType, recordKey) <==>
            r.fieldPath in PathsOf(pairs) && r == ReferenceAt(pairs, recordType, recordKey, r.fieldPath)
  {
    var unsorted := UnsortedReferences(pairs, recordType, recordKey);
    SortMembers(ByKey(ReferenceKey), unsorted);
    MapMembers(path => ReferenceAt(pairs, recordType, recordKey, path), PathsOf(pairs), r);
  }

  lemma WeakestAtMeans(pairs: seq<Pair>, path: string, s: EvidenceState)
    requires (path, s) in pairs
    ensures path in PathsOf(pairs) && (path, WeakestAt(pairs, path)) in pairs
    ensures StateRank(WeakestAt(pairs, path)) <= StateRank(s)
  {
    StatesAtMembers(pairs, path, s);
    PathMembers(pairs, path);
    StatesAtMembers(pairs, path, WeakestAt(pairs, path));
  }

  /** The basis of a finding is the weakest state among everything it rests on. */
  lemma BasisIsWeakest(pairs: seq<Pair>, recordType: RecordType, recordKey: string)
    requires pairs != []
    ensures References(pairs, recordType, recordKey) != []
    ensures Basis(References(pairs, recordType, recordKey)) == Weakest(Map(State, pairs))
  {
    var refs := References(pairs, recordType, recordKey);
    var stateOf := (r: Reference) => r.state;
    forall s | s in Map(State, pairs)
      ensures exists r :: r in refs && StateRank(r.state) <= StateRank(s)
    {
      MapMembers(State, pairs, s);
      var p :| p in pairs && State(p) == s;
      assert (p.0, s) in pairs;
      WeakestAtMeans(pairs, p.0, s);
      ReferenceMembers(pairs, recordType, recordKey, ReferenceAt(pairs, recordType, recordKey, p.0));
    }
    assert Map(State, pairs)[0] in Map(State, pairs);
    assert refs != [];
    var r := Basis(refs);
    MapMembers(stateOf, refs, r);
    var ref :| ref in refs && ref.state == r;
    ReferenceMembers(pairs, recordType, recordKey, ref);
    PathMembers(pairs, ref.fieldPath);
    StatesAtMembers(pairs, ref.fieldPath, r);
    MapMembers(State, pairs, r);
    assert State((ref.fieldPath, r)) == r;
    forall s | s in Map(State, pairs) ensures StateRank(r) <= StateRank(s) {
      var other :| other in refs && StateRank(other.state) <= StateRank(s);
      MapMembers(stateOf, refs, other.state);
    }
    WeakestUnique(Map(State, pairs), r);
  }

  /** What a finding of the rule rests on. */
  function SupportingStates(v: View, rule: Rule): seq<EvidenceState>
  {
    StatesOf(v, rule.wheres + rule.assertion) + if rule.roles != [] then [Inferred] else []
  }

  lemma PairStates(v: View, rule: Rule)
    ensures Map(State, Pairs(v, rule)) == SupportingStates(v, rule)
  {
  }

  /** For a rule: the weakest over its where and assertion predicates, plus "inferred" when it is role-scoped. */
  lemma BasisOfRule(v: View, rule: Rule, recordKey: string)
    requires rule.assertion != []
    ensures SupportingStates(v, rule) != []
    ensures Basis(References(Pairs(v, rule), rule.target, recordKey)) == Weakest(SupportingStates(v, rule))
  {
    PairStates(v, rule);
    BasisIsWeakest(Pairs(v, rule), rule.target, recordKey);
  }
}
