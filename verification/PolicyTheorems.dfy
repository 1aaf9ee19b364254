/**
 What a pack evaluation promises: its findings correspond to its checks, and neither list depends on the order in
 which evidence, rules or roles are given.
 */
module PolicyTheorems {
  import opened Prelude
  import opened Sorting
  import opened Keys
  import opened Evidence
  import opened RuleEngine
  import opened Citations
  import opened PolicyBatch

  // ---------- Findings correspond to checks ----------

  /** What a finding and its check have in common. */
  datatype Site = Site(code: string, recordType: RecordType, recordKey: string, endpoint: string)

  function FindingSite(f: Finding): Site
  {
    if f.references == [] then Site(f.code, FlowRecord, "", f.endpoint)
    else Site(f.code, f.references[0].recordType, f.references[0].recordKey, f.endpoint)
  }

  function CheckSite(c: Check): Site { Site(c.code, c.recordType, c.recordKey, c.endpoint) }

  predicate IsFailed(c: Check) { c.outcome == Failed }

  predicate NotPassed(c: Check) { c.outcome != Passed }

  function NegativeSites(fs: seq<Finding>): seq<Site> { Map(FindingSite, Filter(IsNegative, fs)) }

  function FailedSites(cs: seq<Check>): seq<Site> { Map(CheckSite, Filter(IsFailed, cs)) }

  function Sites(fs: seq<Finding>): seq<Site> { Map(FindingSite, fs) }

  function NotPassedSites(cs: seq<Check>): seq<Site> { Map(CheckSite, Filter(NotPassed, cs)) }

  /** Negative findings match failed checks one to one, and every finding has a non-pass check of its own. */
  ghost predicate Corresponds(fs: seq<Finding>, cs: seq<Check>)
  {
    && multiset(NegativeSites(fs)) == multiset(FailedSites(cs))
    && multiset(Sites(fs)) <= multiset(NotPassedSites(cs))
  }

  lemma CorrespondsConcat(fs: seq<Finding>, cs: seq<Check>, gs: seq<Finding>, ds: seq<Check>)
    requires Corresponds(fs, cs) && Corresponds(gs, ds)
    ensures Corresponds(fs + gs, cs + ds)
  {
    FilterConcat(IsNegative, fs, gs);
    FilterConcat(IsFailed, cs, ds);
    FilterConcat(NotPassed, cs, ds);
    MapConcat(FindingSite, Filter(IsNegative, fs), Filter(IsNegative, gs));
    MapConcat(CheckSite, Filter(IsFailed, cs), Filter(IsFailed, ds));
    MapConcat(CheckSite, Filter(NotPassed, cs), Filter(NotPassed, ds));
    MapConcat(FindingSite, fs, gs);
  }

  lemma {:induction false} CorrespondsFlat<T>(f: T -> seq<Finding>, g: T -> seq<Check>, xs: seq<T>)
    requires forall x :: x in xs ==> Corresponds(f(x), g(x))
    ensures Corresponds(FlatMap(f, xs), FlatMap(g, xs))
  {
    if xs != [] {
      assert xs[0] in xs;
      CorrespondsFlat(f, g, xs[1..]);
      CorrespondsConcat(f(xs[0]), g(xs[0]), FlatMap(f, xs[1..]), FlatMap(g, xs[1..]));
    }
  }

  /** Correspondence does not depend on the order of the lists. */
  lemma CorrespondsShuffled(fs: seq<Finding>, cs: seq<Check>, gs: seq<Finding>, ds: seq<Check>)
    requires Corresponds(fs, cs) && multiset(fs) == multiset(gs) && multiset(cs) == multiset(ds)
    ensures Corresponds(gs, ds)
  {
    FilterForgetsOrder(IsNegative, fs, gs);
    FilterForgetsOrder(IsFailed, cs, ds);
    FilterForgetsOrder(NotPassed, cs, ds);
    MapForgetsOrder(FindingSite, Filter(IsNegative, fs), Filter(IsNegative, gs));
    MapForgetsOrder(CheckSite, Filter(IsFailed, cs), Filter(IsFailed, ds));
    MapForgetsOrder(CheckSite, Filter(NotPassed, cs), Filter(NotPassed, ds));
    MapForgetsOrder(FindingSite, fs, gs);
  }

  /** A finding cites the record it was raised on. */
  lemma SiteOfFinding(st: Setting, rule: Rule, c: Context, key: string, outcome: Outcome)
    requires rule.assertion != []
    ensures var f := MakeFinding(st, rule, c, key, outcome);
            && f.references != [] && FindingSite(f) == Site(rule.id, rule.target, key, Endpoint(c))
            && f.references[0].recordType == rule.target && f.references[0].recordKey == key
  {
    var pairs := Pairs(ViewOf(st.w, c), rule);
    assert pairs[0] in pairs;
    BasisIsWeakest(pairs, rule.target, key);
    var refs := References(pairs, rule.target, key);
    assert refs[0] in refs;
    ReferenceMembers(pairs, rule.target, key, refs[0]);
  }

  lemma OneSite(f: Finding, c: Check)
    requires FindingSite(f) == CheckSite(c) && c.outcome != Passed
    requires f.outcome == Negative <==> c.outcome == Failed
    ensures Corresponds([f], [c])
  {
    assert [f][1..] == [] && [c][1..] == [];
    assert Filter(IsNegative, []) == [] && Filter(IsFailed, []) == [] && Filter(NotPassed, []) == [];
    assert Sites([f]) == [FindingSite(f)] && NotPassedSites([c]) == [CheckSite(c)];
  }

  lemma NoFindings(cs: seq<Check>)
    requires forall c :: c in cs ==> c.outcome != Failed
    ensures Corresponds([], cs)
  {
    HasMember(Filter(IsFailed, cs));
  }

  /** What a verdict may look like: findings come with a check, and negative results with a failed one. */
  lemma VerdictShape(v: View, rule: Rule, day: int)
    ensures var r := EvaluateRule(v, rule, day);
            && (r.result == RuleNegative ==> rule.failOutcome == Negative && CheckIs(r, Failed))
            && (r.result == RuleIndeterminate ==> r.check.Some? && r.check.value.0 in {Unknown, Unseen})
            && (r.result == RulePass ==> CheckIs(r, Passed))
            && (r.result == NotApplicable && r.check.Some? ==> r.check.value.0 in {Unknown, Unseen})
  {
  }

  lemma CorrespondsAt(st: Setting, rule: Rule, c: Context, key: string, coverage: Coverage)
    requires rule.assertion != [] && coverage == EvaluateRule(ViewOf(st.w, c), rule, Day(st.time))
    ensures Corresponds(FindingsFor(st, rule, c, key, coverage), ChecksFor(st, rule, c, key, coverage))
  {
    VerdictShape(ViewOf(st.w, c), rule, Day(st.time));
    var checks := ChecksFor(st, rule, c, key, coverage);
    if coverage.result == RuleNegative || coverage.result == RuleIndeterminate {
      var outcome := if coverage.result == RuleNegative then Negative else Inconclusive;
      SiteOfFinding(st, rule, c, key, outcome);
      OneSite(MakeFinding(st, rule, c, key, outcome), checks[0]);
    } else {
      NoFindings(checks);
    }
  }

  /**
   On one record a rule raises a negative finding exactly when it applies there, some assertion fails and the rule is
   meant to be negative; the finding is verified and has the rule's severity for it.
   */
  lemma NegativeFindingIff(st: Setting, roles: seq<Role>, ev: Bundle, rule: Rule, item: Item)
    ensures var v := ViewOf(st.w, ContextOf(st.w, roles, ev, item));
            (exists f :: f in FindingsAt(st, roles, ev, rule, item) && IsNegative(f)) <==>
            Applies(v, rule, Day(st.time)) && SomeFails(v, rule.assertion) && rule.failOutcome == Negative
    ensures forall f :: f in FindingsAt(st, roles, ev, rule, item) && IsNegative(f) ==>
              f.severity == rule.negativeSeverity && f.evaluationState == Verified
  {
    var c := ContextOf(st.w, roles, ev, item);
    var key := RecordKey(item);
    var coverage := EvaluateRule(ViewOf(st.w, c), rule, Day(st.time));
    VerdictMeans(ViewOf(st.w, c), rule, Day(st.time));
    NegativeFor(st, rule, c, key, coverage);
  }

  lemma NegativeFor(st: Setting, rule: Rule, c: Context, key: string, coverage: Coverage)
    requires coverage.result == RuleNegative ==> rule.failOutcome == Negative
    ensures (exists f :: f in FindingsFor(st, rule, c, key, coverage) && IsNegative(f)) <==>
            coverage.result == RuleNegative
    ensures forall f :: f in FindingsFor(st, rule, c, key, coverage) && IsNegative(f) ==>
              f.severity == rule.negativeSeverity && f.evaluationState == Verified
  {
    if coverage.result == RuleNegative {
      var f := MakeFinding(st, rule, c, key, rule.failOutcome);
      assert f in FindingsFor(st, rule, c, key, coverage);
    }
  }

  predicate AllAssert(rules: seq<Rule>) { forall rule :: rule in rules ==> rule.assertion != [] }

  lemma CorrespondsRaw(st: Setting, roles: seq<Role>, ev: Bundle, rules: seq<Rule>)
    requires AllAssert(rules)
    ensures Corresponds(RawFindings(st, roles, ev, rules), RawChecks(st, roles, ev, rules))
  {
    var f := rule => FindingsOfRule(st, roles, ev, rule);
    var g := rule => ChecksOfRule(st, roles, ev, rule);
    forall rule | rule in rules ensures Corresponds(f(rule), g(rule)) {
      if Active(rule, Day(st.time)) {
        var items := Items(ev, rule.target);
        var fi := item => FindingsAt(st, roles, ev, rule, item);
        var gi := item => ChecksAt(st, roles, ev, rule, item);
        forall item | item in items ensures Corresponds(fi(item), gi(item)) {
          var c := ContextOf(st.w, roles, ev, item);
          CorrespondsAt(st, rule, c, RecordKey(item), EvaluateRule(ViewOf(st.w, c), rule, Day(st.time)));
        }
        CorrespondsFlat(fi, gi, items);
      } else {
        NoFindings([]);
      }
    }
    CorrespondsFlat(f, g, rules);
  }

  lemma FindingsMatchChecks(input: Inputs)
    requires AllAssert(input.pack.rules)
    ensures Corresponds(Findings(input), Checks(input))
  {
    var st, roles, ev, rules := SettingOf(input), input.pack.roles, input.ev, input.pack.rules;
    CorrespondsRaw(st, roles, ev, rules);
    CorrespondsShuffled(
      RawFindings(st, roles, ev, rules), RawChecks(st, roles, ev, rules), Findings(input), Checks(input));
  }

  /**
   Read off the correspondence: no finding at all when every check passes, and no failed check without a negative
   finding.
   */
  lemma CorrespondenceMeans(fs: seq<Finding>, cs: seq<Check>)
    requires Corresponds(fs, cs)
    ensures |Filter(IsNegative, fs)| == |Filter(IsFailed, cs)|
    ensures |fs| <= |Filter(NotPassed, cs)|
    ensures (forall c :: c in cs ==> c.outcome == Passed) ==> fs == []
    ensures fs == [] ==> forall c :: c in cs ==> c.outcome != Failed
  {
    assert |multiset(NegativeSites(fs))| == |NegativeSites(fs)| && |multiset(FailedSites(cs))| == |FailedSites(cs)|;
    assert |multiset(Sites(fs))| == |Sites(fs)| && |multiset(NotPassedSites(cs))| == |NotPassedSites(cs)|;
    SubsetSize(multiset(Sites(fs)), multiset(NotPassedSites(cs)));
    HasMember(Filter(NotPassed, cs));
    forall c | c in cs && c.outcome == Failed ensures fs != [] {
      assert c in Filter(IsFailed, cs);
    }
  }

  lemma SubsetSize<T>(a: multiset<T>, b: multiset<T>)
    requires a <= b
    ensures |a| <= |b|
  {
    assert b == a + (b - a);
  }

  // ---------- Order does not matter ----------

  /** The same run with evidence, rules and roles in another order; the pack digest is held fixed. */
  ghost predicate Shuffled(a: Inputs, b: Inputs)
  {
    && SettingOf(a) == SettingOf(b)
    && multiset(a.pack.roles) == multiset(b.pack.roles) && multiset(a.pack.rules) == multiset(b.pack.rules)
    && ShuffledBundle(a.ev, b.ev)
  }

  ghost predicate ShuffledBundle(a: Bundle, b: Bundle)
  {
    && multiset(a.flows) == multiset(b.flows) && multiset(a.sessions) == multiset(b.sessions)
    && multiset(a.handshakes) == multiset(b.handshakes) && multiset(a.certificates) == multiset(b.certificates)
  }

  /** A uid determines its record, a certificate key its certificate. */
  ghost predicate KeysUnique(ev: Bundle)
  {
    && UniqueUid(FlowUid, ev.flows) && UniqueUid(SessionUid, ev.sessions) && UniqueUid(HandshakeUid, ev.handshakes)
    && CertificateKeysUnique(ev.certificates)
  }

  ghost predicate CertificateKeysUnique(cs: seq<Certificate>)
  {
    forall c, d :: c in cs && d in cs && RecordKey(CertificateItem(c)) == RecordKey(CertificateItem(d)) ==> c == d
  }

  ghost predicate UniqueUid<T>(uid: T -> string, xs: seq<T>)
  {
    forall x, y :: x in xs && y in xs && uid(x) == uid(y) ==> x == y
  }

  ghost predicate RuleIdsUnique(rules: seq<Rule>)
  {
    forall r, s :: r in rules && s in rules && r.id == s.id ==> r == s
  }

  lemma {:induction false} IndexMeans<T(!new)>(uid: T -> string, xs: seq<T>)
    requires UniqueUid(uid, xs)
    ensures IndexFirst(uid, xs) == IndexLast(uid, xs)
    ensures forall k :: k in IndexLast(uid, xs) <==> exists x :: x in xs && uid(x) == k
    ensures forall k :: k in IndexLast(uid, xs) ==> var x := IndexLast(uid, xs)[k]; x in xs && uid(x) == k
  {
    if xs != [] {
      var n := |xs| - 1;
      assert xs == xs[..n] + [xs[n]];
      IndexMeans(uid, xs[..n]);
      assert xs[n] in xs;
    }
  }

  lemma IndexForgetsOrder<T(!new)>(uid: T -> string, xs: seq<T>, ys: seq<T>)
    requires UniqueUid(uid, xs) && multiset(xs) == multiset(ys)
    ensures IndexLast(uid, xs) == IndexLast(uid, ys) && IndexFirst(uid, xs) == IndexFirst(uid, ys)
  {
    SameMembers(xs, ys);
    IndexMeans(uid, xs);
    IndexMeans(uid, ys);
    MapsEqual(IndexLast(uid, xs), IndexLast(uid, ys));
  }

  lemma LeafForgetsOrder(xs: seq<Certificate>, ys: seq<Certificate>, uid: string)
    requires multiset(xs) == multiset(ys) && CertificateKeysUnique(xs)
    ensures Leaf(CertificatesOf(xs, uid)) == Leaf(CertificatesOf(ys, uid))
  {
    FilterForgetsOrder(HasKey(CertificateUid, uid), xs, ys);
    var a, b := CertificatesOf(xs, uid), CertificatesOf(ys, uid);
    FilterForgetsOrder(IsLeaf, a, b);
    var l := Filter(IsLeaf, a);
    forall c, d | c in l && d in l && Sha(c) == Sha(d) ensures c == d {
      assert S(c.sha256) == Sha(c)[0] && S(d.sha256) == Sha(d)[0];
      assert RecordKey(CertificateItem(c)) == RecordKey(CertificateItem(d));
    }
    SortByKeyForgetsOrder(Sha, l, Filter(IsLeaf, b));
  }

  lemma SingleForgetsOrder(a: seq<Role>, b: seq<Role>)
    requires multiset(a) == multiset(b)
    ensures |a| == |b| && (|a| == 1 ==> a == b)
  {
    SameMembers(a, b);
    assert |a| == 1 ==> a[0] in b;
  }

  lemma RoleForgetsOrder(w: Semantics, a: seq<Role>, b: seq<Role>, flow: Option<Flow>, session: Option<Session>)
    requires multiset(a) == multiset(b)
    ensures ServiceRole(w, a, flow, session) == ServiceRole(w, b, flow, session)
  {
    if session.Some? && flow.Some? {
      var q := role => RoleMatches(w, flow.value, session.value, role);
      FilterForgetsOrder(q, a, b);
      SingleForgetsOrder(Filter(q, a), Filter(q, b));
    }
  }

  lemma ContextForgetsOrder(w: Semantics, roles: seq<Role>, roles': seq<Role>, ev: Bundle, ev': Bundle, item: Item)
    requires multiset(roles) == multiset(roles') && ShuffledBundle(ev, ev') && KeysUnique(ev)
    ensures ContextOf(w, roles, ev, item) == ContextOf(w, roles', ev', item)
  {
    var uid := Uid(item);
    IndexForgetsOrder(FlowUid, ev.flows, ev'.flows);
    IndexForgetsOrder(SessionUid, ev.sessions, ev'.sessions);
    IndexForgetsOrder(HandshakeUid, ev.handshakes, ev'.handshakes);
    LeafForgetsOrder(ev.certificates, ev'.certificates, uid);
    RoleForgetsOrder(
      w, roles, roles', Get(IndexLast(FlowUid, ev.flows), uid), Get(IndexLast(SessionUid, ev.sessions), uid));
  }

  lemma ItemsForgetOrder(ev: Bundle, ev': Bundle, target: RecordType)
    requires ShuffledBundle(ev, ev')
    ensures multiset(Items(ev, target)) == multiset(Items(ev', target))
  {
    MapForgetsOrder(f => FlowItem(f), ev.flows, ev'.flows);
    MapForgetsOrder(s => SessionItem(s), ev.sessions, ev'.sessions);
    MapForgetsOrder(h => HandshakeItem(h), ev.handshakes, ev'.handshakes);
    MapForgetsOrder(c => CertificateItem(c), ev.certificates, ev'.certificates);
  }

  lemma RuleForgetsOrder(st: Setting, roles: seq<Role>, roles': seq<Role>, ev: Bundle, ev': Bundle, rule: Rule)
    requires multiset(roles) == multiset(roles') && ShuffledBundle(ev, ev') && KeysUnique(ev)
    ensures multiset(FindingsOfRule(st, roles, ev, rule)) == multiset(FindingsOfRule(st, roles', ev', rule))
    ensures multiset(ChecksOfRule(st, roles, ev, rule)) == multiset(ChecksOfRule(st, roles', ev', rule))
  {
    var items, items' := Items(ev, rule.target), Items(ev', rule.target);
    ItemsForgetOrder(ev, ev', rule.target);
    forall item ensures FindingsAt(st, roles, ev, rule, item) == FindingsAt(st, roles', ev', rule, item)
      ensures ChecksAt(st, roles, ev, rule, item) == ChecksAt(st, roles', ev', rule, item)
    {
      ContextForgetsOrder(st.w, roles, roles', ev, ev', item);
    }
    FlatMapForgetsOrder(
      item => FindingsAt(st, roles, ev, rule, item), item => FindingsAt(st, roles', ev', rule, item), items, items');
    FlatMapForgetsOrder(
      item => ChecksAt(st, roles, ev, rule, item), item => ChecksAt(st, roles', ev', rule, item), items, items');
  }

  lemma RawForgetsOrder(
    st: Setting, roles: seq<Role>, roles': seq<Role>, ev: Bundle, ev': Bundle, rules: seq<Rule>, rules': seq<Rule>)
    requires multiset(roles) == multiset(roles') && ShuffledBundle(ev, ev') && KeysUnique(ev)
    requires multiset(rules) == multiset(rules')
    ensures multiset(RawFindings(st, roles, ev, rules)) == multiset(RawFindings(st, roles', ev', rules'))
    ensures multiset(RawChecks(st, roles, ev, rules)) == multiset(RawChecks(st, roles', ev', rules'))
  {
    forall rule
      ensures multiset(FindingsOfRule(st, roles, ev, rule)) == multiset(FindingsOfRule(st, roles', ev', rule))
      ensures multiset(ChecksOfRule(st, roles, ev, rule)) == multiset(ChecksOfRule(st, roles', ev', rule))
    {
      RuleForgetsOrder(st, roles, roles', ev, ev', rule);
    }
    FlatMapForgetsOrder(
      rule => FindingsOfRule(st, roles, ev, rule), rule => FindingsOfRule(st, roles', ev', rule), rules, rules');
    FlatMapForgetsOrder(
      rule => ChecksOfRule(st, roles, ev, rule), rule => ChecksOfRule(st, roles', ev', rule), rules, rules');
  }

  // ---------- Sort keys tell findings apart ----------

  lemma {:induction false} ItemOf(ev: Bundle, target: RecordType, i: Item, j: Item)
    requires KeysUnique(ev) && i in Items(ev, target) && j in Items(ev, target) && RecordKey(i) == RecordKey(j)
    ensures i == j
  {
    match target
    case FlowRecord =>
      assert i.FlowItem? && j.FlowItem? && i.f in ev.flows && j.f in ev.flows;
      assert FlowUid(i.f) == FlowUid(j.f);
    case SessionRecord =>
      assert i.SessionItem? && j.SessionItem? && i.s in ev.sessions && j.s in ev.sessions;
      assert SessionUid(i.s) == SessionUid(j.s);
    case HandshakeRecord =>
      assert i.HandshakeItem? && j.HandshakeItem? && i.h in ev.handshakes && j.h in ev.handshakes;
      assert HandshakeUid(i.h) == HandshakeUid(j.h);
    case CertificateRecord =>
      assert i.CertificateItem? && j.CertificateItem? && i.c in ev.certificates && j.c in ev.certificates;
  }

  /** Where a finding comes from. */
  ghost predicate RaisedBy(
    st: Setting, roles: seq<Role>, ev: Bundle, rules: seq<Rule>, f: Finding, rule: Rule, item: Item)
  {
    rule in rules && item in Items(ev, rule.target) && f in FindingsAt(st, roles, ev, rule, item)
  }

  ghost predicate CheckedBy(
    st: Setting, roles: seq<Role>, ev: Bundle, rules: seq<Rule>, c: Check, rule: Rule, item: Item)
  {
    rule in rules && item in Items(ev, rule.target) && c in ChecksAt(st, roles, ev, rule, item)
  }

  lemma FindingAt(st: Setting, rule: Rule, c: Context, key: string, coverage: Coverage, f: Finding)
    requires f in FindingsFor(st, rule, c, key, coverage) && rule.assertion != []
    ensures FindingsFor(st, rule, c, key, coverage) == [f] && f == MakeFinding(st, rule, c, key, f.outcome)
    ensures f.code == rule.id && f.references != [] && f.references[0].recordKey == key
  {
    SiteOfFinding(st, rule, c, key, f.outcome);
  }

  lemma OriginOfFinding(st: Setting, roles: seq<Role>, ev: Bundle, rules: seq<Rule>, f: Finding)
    returns (rule: Rule, item: Item)
    requires f in RawFindings(st, roles, ev, rules) && AllAssert(rules)
    ensures RaisedBy(st, roles, ev, rules, f, rule, item)
    ensures FindingsAt(st, roles, ev, rule, item) == [f] && f.code == rule.id
    ensures f.references != [] && f.references[0].recordKey == RecordKey(item)
    ensures f == MakeFinding(st, rule, ContextOf(st.w, roles, ev, item), RecordKey(item), f.outcome)
  {
    rule := FlatMapOrigin(rule => FindingsOfRule(st, roles, ev, rule), rules, f);
    item := FlatMapOrigin(item => FindingsAt(st, roles, ev, rule, item), Items(ev, rule.target), f);
    var c := ContextOf(st.w, roles, ev, item);
    FindingAt(st, rule, c, RecordKey(item), EvaluateRule(ViewOf(st.w, c), rule, Day(st.time)), f);
  }

  lemma CheckAt(st: Setting, rule: Rule, c: Context, key: string, coverage: Coverage, check: Check)
    requires check in ChecksFor(st, rule, c, key, coverage)
    ensures ChecksFor(st, rule, c, key, coverage) == [check] && check.code == rule.id && check.recordKey == key
  {
  }

  lemma OriginOfCheck(st: Setting, roles: seq<Role>, ev: Bundle, rules: seq<Rule>, check: Check)
    returns (rule: Rule, item: Item)
    requires check in RawChecks(st, roles, ev, rules)
    ensures CheckedBy(st, roles, ev, rules, check, rule, item)
    ensures ChecksAt(st, roles, ev, rule, item) == [check]
    ensures check.code == rule.id && check.recordKey == RecordKey(item)
  {
    rule := FlatMapOrigin(rule => ChecksOfRule(st, roles, ev, rule), rules, check);
    item := FlatMapOrigin(item => ChecksAt(st, roles, ev, rule, item), Items(ev, rule.target), check);
    var c := ContextOf(st.w, roles, ev, item);
    CheckAt(st, rule, c, RecordKey(item), EvaluateRule(ViewOf(st.w, c), rule, Day(st.time)), check);
  }

  /** Rule id and record key determine the finding. */
  lemma SiteDetermines(st: Setting, roles: seq<Role>, ev: Bundle, rules: seq<Rule>, f: Finding, g: Finding)
    requires KeysUnique(ev) && RuleIdsUnique(rules) && AllAssert(rules)
    requires f in RawFindings(st, roles, ev, rules) && g in RawFindings(st, roles, ev, rules)
    requires f.code == g.code
    requires f.references != [] && g.references != [] ==> f.references[0].recordKey == g.references[0].recordKey
    ensures f == g
  {
    var r, i := OriginOfFinding(st, roles, ev, rules, f);
    var s, j := OriginOfFinding(st, roles, ev, rules, g);
    assert r == s;
    ItemOf(ev, r.target, i, j);
  }

  lemma FindingKeyParts(f: Finding, g: Finding)
    requires FindingKey(f) == FindingKey(g)
    ensures f.code == g.code
    ensures f.references != [] && g.references != [] ==> f.references[0].recordKey == g.references[0].recordKey
  {
    var a, b := FindingKey(f), FindingKey(g);
    assert a[3] == b[3] && a[2] == b[2];
  }

  lemma FindingsKeyed(st: Setting, roles: seq<Role>, ev: Bundle, rules: seq<Rule>)
    requires KeysUnique(ev) && RuleIdsUnique(rules) && AllAssert(rules)
    ensures KeyedBy(FindingKey, RawFindings(st, roles, ev, rules))
  {
    var raw := RawFindings(st, roles, ev, rules);
    forall f, g | f in raw && g in raw && FindingKey(f) == FindingKey(g) ensures f == g {
      FindingKeyParts(f, g);
      SiteDetermines(st, roles, ev, rules, f, g);
    }
  }

  lemma CheckKeyParts(c: Check, d: Check)
    requires CheckKey(c) == CheckKey(d)
    ensures c.code == d.code && c.recordKey == d.recordKey
  {
    var a, b := CheckKey(c), CheckKey(d);
    assert a[3] == b[3] && a[2] == b[2];
  }

  lemma ChecksKeyed(st: Setting, roles: seq<Role>, ev: Bundle, rules: seq<Rule>)
    requires KeysUnique(ev) && RuleIdsUnique(rules)
    ensures KeyedBy(CheckKey, RawChecks(st, roles, ev, rules))
  {
    var raw := RawChecks(st, roles, ev, rules);
    forall c, d | c in raw && d in raw && CheckKey(c) == CheckKey(d) ensures c == d {
      CheckKeyParts(c, d);
      var r, i := OriginOfCheck(st, roles, ev, rules, c);
      var s, j := OriginOfCheck(st, roles, ev, rules, d);
      assert r == s;
      ItemOf(ev, r.target, i, j);
    }
  }

  /** The published lists do not depend on the order of flows, sessions, handshakes, certificates, rules or roles. */
  lemma EvaluationForgetsInputOrder(a: Inputs, b: Inputs)
    requires Shuffled(a, b) && KeysUnique(a.ev) && RuleIdsUnique(a.pack.rules) && AllAssert(a.pack.rules)
    ensures Findings(a) == Findings(b) && Checks(a) == Checks(b)
  {
    var st := SettingOf(a);
    RawForgetsOrder(st, a.pack.roles, b.pack.roles, a.ev, b.ev, a.pack.rules, b.pack.rules);
    FindingsKeyed(st, a.pack.roles, a.ev, a.pack.rules);
    ChecksKeyed(st, a.pack.roles, a.ev, a.pack.rules);
    SortByKeyForgetsOrder(
      FindingKey, RawFindings(st, a.pack.roles, a.ev, a.pack.rules), RawFindings(st, b.pack.roles, b.ev, b.pack.rules));
    SortByKeyForgetsOrder(
      CheckKey, RawChecks(st, a.pack.roles, a.ev, a.pack.rules), RawChecks(st, b.pack.roles, b.ev, b.pack.rules));
  }

  /** No rule id holds the bar that joins the parts of a finding id. */
  predicate BarFreeIds(rules: seq<Rule>) { forall rule :: rule in rules ==> '|' !in rule.id }

  /** No record key does. */
  ghost predicate BarFreeKeys(ev: Bundle)
  {
    forall target, item :: item in Items(ev, target) ==> '|' !in RecordKey(item)
  }

  lemma NamesHoldNoBar(outcome: Outcome, target: RecordType)
    ensures '|' !in OutcomeName(outcome) && '|' !in RecordTypeName(target)
  {
  }

  /** Rule, outcome, target and key, as they end the text behind a finding id. */
  function SiteText(id: string, outcome: string, target: string, key: string): string
  {
    id + "|" + outcome + "|" + target + "|" + key
  }

  lemma MaterialText(st: Setting, rule: Rule, o: Outcome, key: string)
    ensures Bars(IdMaterial(st, rule, OutcomeName(o), key)[3..]) ==
            SiteText(rule.id, OutcomeName(o), RecordTypeName(rule.target), key)
  {
    var a, b, c := rule.id, OutcomeName(o), RecordTypeName(rule.target);
    var parts := IdMaterial(st, rule, b, key)[3..];
    assert parts == [a, b, c, key] && parts[1..] == [b, c, key] && parts[1..][1..] == [c, key];
    assert Bars([c, key]) == c + "|" + Bars([key]) by {
      assert [c, key][1..] == [key];
    }
    assert Bars([b, c, key]) == b + "|" + Bars([c, key]);
    assert Bars(parts) == a + "|" + Bars([b, c, key]);
    assert a + "|" + (b + "|" + (c + "|" + key)) == a + "|" + b + "|" + c + "|" + key;
  }

  /**
   Within a run, the text behind a finding id gives away rule and record if the ids, or else the keys, hold no bar.
   */
  lemma TextGivesSite(a: string, o: string, t: string, k: string, b: string, p: string, u: string, l: string)
    requires SiteText(a, o, t, k) == SiteText(b, p, u, l)
    requires '|' !in o && '|' !in t && '|' !in p && '|' !in u
    requires ('|' !in a && '|' !in b) || ('|' !in k && '|' !in l)
    ensures a == b && k == l
  {
    if '|' !in k && '|' !in l {
      SplitAtLastBar(a + "|" + o + "|" + t, k, b + "|" + p + "|" + u, l);
      SplitAtLastBar(a + "|" + o, t, b + "|" + p, u);
      SplitAtLastBar(a, o, b, p);
    } else {
      TextFromTheLeft(a, o, t, k, b, p, u, l);
    }
  }

  lemma TextFromTheLeft(a: string, o: string, t: string, k: string, b: string, p: string, u: string, l: string)
    requires SiteText(a, o, t, k) == SiteText(b, p, u, l)
    requires '|' !in a && '|' !in b && '|' !in o && '|' !in t && '|' !in p && '|' !in u
    ensures a == b && k == l
  {
    assert SiteText(a, o, t, k) == a + "|" + (o + "|" + (t + "|" + k));
    assert SiteText(b, p, u, l) == b + "|" + (p + "|" + (u + "|" + l));
    SplitAtBar(a, o + "|" + (t + "|" + k), b, p + "|" + (u + "|" + l));
    SplitAtBar(o, t + "|" + k, p, u + "|" + l);
    SplitAtBar(t, k, u, l);
  }

  lemma MaterialGivesSite(st: Setting, r: Rule, s: Rule, o: Outcome, p: Outcome, k: string, l: string)
    requires ('|' !in r.id && '|' !in s.id) || ('|' !in k && '|' !in l)
    requires Bars(IdMaterial(st, r, OutcomeName(o), k)) == Bars(IdMaterial(st, s, OutcomeName(p), l))
    ensures r.id == s.id && k == l
  {
    NamesHoldNoBar(o, r.target);
    NamesHoldNoBar(p, s.target);
    SkipShared(IdMaterial(st, r, OutcomeName(o), k), IdMaterial(st, s, OutcomeName(p), l), 3);
    MaterialText(st, r, o, k);
    MaterialText(st, s, p, l);
    TextGivesSite(
      r.id, OutcomeName(o), RecordTypeName(r.target), k, s.id, OutcomeName(p), RecordTypeName(s.target), l);
  }

  /** With bars in both, two different rules on two different flows give the same text, hence the same finding id. */
  lemma BarsCollide(a: string, x: string, y: string)
    ensures SiteText(a, "negative", "flow", x + "|negative|flow|" + y) ==
            SiteText(a + "|negative|flow|" + x, "negative", "flow", y)
  {
    var middle := "|negative|flow|";
    assert SiteText(a, "negative", "flow", x + middle + y) == a + middle + (x + middle + y);
    assert SiteText(a + middle + x, "negative", "flow", y) == (a + middle + x) + middle + y;
  }

  /** Under a collision-free digest a finding id determines its finding. */
  lemma FindingIdsDetermine(input: Inputs, f: Finding, g: Finding)
    requires KeysUnique(input.ev) && RuleIdsUnique(input.pack.rules) && AllAssert(input.pack.rules)
    requires Injective(input.w.digest) && (BarFreeIds(input.pack.rules) || BarFreeKeys(input.ev))
    requires f in Findings(input) && g in Findings(input) && f.id == g.id
    ensures f == g
  {
    var st, roles, ev, rules := SettingOf(input), input.pack.roles, input.ev, input.pack.rules;
    SortMembers(ByKey(FindingKey), RawFindings(st, roles, ev, rules));
    var r, i := OriginOfFinding(st, roles, ev, rules, f);
    var s, j := OriginOfFinding(st, roles, ev, rules, g);
    MaterialGivesSite(st, r, s, f.outcome, g.outcome, RecordKey(i), RecordKey(j));
    SiteDetermines(st, roles, ev, rules, f, g);
  }

  lemma FindingVersion(input: Inputs, f: Finding)
    requires f in Findings(input) && AllAssert(input.pack.rules)
    ensures f.packVersion == input.packDigest
  {
    var st, roles, ev, rules := SettingOf(input), input.pack.roles, input.ev, input.pack.rules;
    SortMembers(ByKey(FindingKey), RawFindings(st, roles, ev, rules));
    var _, _ := OriginOfFinding(st, roles, ev, rules, f);
  }
}
