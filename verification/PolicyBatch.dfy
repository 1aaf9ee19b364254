/**
 Evaluation of a whole rule pack over a capture: every active rule on every record of its target, giving the findings
 and the checks that later stages count.
 */
module PolicyBatch {
  import opened Prelude
  import opened Sorting
  import opened Keys
  import opened Evidence
  import opened RuleEngine
  import opened Citations

  datatype Role = Role(id: string, all: seq<Predicate>)

  datatype Pack = Pack(profile: string, roles: seq<Role>, rules: seq<Rule>)

  datatype Bundle = Bundle(
    flows: seq<Flow>, sessions: seq<Session>, handshakes: seq<Handshake>, certificates: seq<Certificate>)

  datatype Inputs = Inputs(w: Semantics, pack: Pack, packDigest: string, capture: string, time: int, ev: Bundle)

  datatype Item =
    FlowItem(f: Flow) | SessionItem(s: Session) | HandshakeItem(h: Handshake) | CertificateItem(c: Certificate)

  const SECONDS_PER_DAY := 86400

  // ---------- Dictionaries over the evidence ----------

  /** A dictionary by uid in which the last record of a uid stays. */
  function IndexLast<T>(uid: T -> string, xs: seq<T>): map<string, T>
  {
    if xs == [] then map[]
    else IndexLast(uid, xs[..|xs| - 1])[uid(xs[|xs| - 1]) := xs[|xs| - 1]]
  }

  /** A dictionary by uid in which the first record of a uid stays. */
  function IndexFirst<T>(uid: T -> string, xs: seq<T>): map<string, T>
  {
    if xs == [] then map[]
    else
      var m := IndexFirst(uid, xs[..|xs| - 1]);
      var last := xs[|xs| - 1];
      if uid(last) in m then m else m[uid(last) := last]
  }

  function Get<T>(m: map<string, T>, uid: string): Option<T>
  {
    if uid in m then Some(m[uid]) else None
  }

  // ---------- The context of a record ----------

  predicate IsLeaf(c: Certificate) { c.chainIndex == 0 && c.role == Server }

  function Sha(c: Certificate): seq<Atom> { [S(c.sha256)] }

  function Leaf(certificates: seq<Certificate>): Option<Certificate>
  {
    var leaves := SortBy(ByKey(Sha), Filter(IsLeaf, certificates));
    if leaves == [] then None else Some(leaves[0])
  }

  function CertificateUid(c: Certificate): string { c.uid }

  function CertificatesOf(certificates: seq<Certificate>, uid: string): seq<Certificate>
  {
    Group(CertificateUid, certificates, uid)
  }

  predicate RoleMatches(w: Semantics, flow: Flow, session: Session, role: Role)
  {
    Conjunction(ViewOf(w, Context(Some(flow), Some(session), None, None, None)), role.all) == Pass
  }

  /** The single matching role; none and several are told apart. */
  function ServiceRole(w: Semantics, roles: seq<Role>, flow: Option<Flow>, session: Option<Session>): string
  {
    if session.None? || flow.None? then "unclassified"
    else
      var matches := Filter(role => RoleMatches(w, flow.value, session.value, role), roles);
      if |matches| == 1 then matches[0].id else if |matches| > 1 then "indeterminate" else "unclassified"
  }

  function RoleId(role: Role): string { role.id }

  method MatchingRoles(w: Semantics, roles: seq<Role>, flow: Flow, session: Session) returns (matches: seq<string>)
    ensures matches == Map(RoleId, Filter(role => RoleMatches(w, flow, session, role), roles))
  {
    ghost var q := role => RoleMatches(w, flow, session, role);
    matches := [];
    for i := 0 to |roles|
      invariant matches == Map(RoleId, Filter(q, roles[..i]))
    {
      MapFilterSnoc(RoleId, q, roles, i);
      var state, _ := EvalPredicates(ViewOf(w, Context(Some(flow), Some(session), None, None, None)), roles[i].all);
      if state == Pass {
        matches := matches + [roles[i].id];
      }
    }
    assert roles[..|roles|] == roles;
  }

  method ClassifyRole(w: Semantics, roles: seq<Role>, flow: Option<Flow>, session: Option<Session>) returns (r: string)
    ensures r == ServiceRole(w, roles, flow, session)
  {
    if session.None? || flow.None? {
      return "unclassified";
    }
    var matches := MatchingRoles(w, roles, flow.value, session.value);
    if |matches| == 1 {
      return matches[0];
    }
    if |matches| > 1 {
      return "indeterminate";
    }
    return "unclassified";
  }

  function Uid(item: Item): string
  {
    match item
    case FlowItem(f) => f.uid
    case SessionItem(s) => s.uid
    case HandshakeItem(h) => h.uid
    case CertificateItem(c) => c.uid
  }

  function FlowUid(f: Flow): string { f.uid }

  function SessionUid(s: Session): string { s.uid }

  function HandshakeUid(h: Handshake): string { h.uid }

  function ContextFrom(
    flow: Option<Flow>, session: Option<Session>, handshake: Option<Handshake>, leaf: Option<Certificate>, role: string,
    item: Item): Context
  {
    Context(
      flow, session,
      if item.HandshakeItem? then Some(item.h) else handshake,
      if item.CertificateItem? then Some(item.c) else leaf,
      Some(role))
  }

  function ContextOf(w: Semantics, roles: seq<Role>, ev: Bundle, item: Item): Context
  {
    var uid := Uid(item);
    var flow := Get(IndexLast(FlowUid, ev.flows), uid);
    var session := Get(IndexLast(SessionUid, ev.sessions), uid);
    ContextFrom(
      flow, session, Get(IndexFirst(HandshakeUid, ev.handshakes), uid), Leaf(CertificatesOf(ev.certificates, uid)),
      ServiceRole(w, roles, flow, session), item)
  }

  // ---------- Findings and checks ----------

  function Items(ev: Bundle, target: RecordType): seq<Item>
  {
    match target
    case FlowRecord => Map(f => FlowItem(f), ev.flows)
    case SessionRecord => Map(s => SessionItem(s), ev.sessions)
    case HandshakeRecord => Map(h => HandshakeItem(h), ev.handshakes)
    case CertificateRecord => Map(c => CertificateItem(c), ev.certificates)
  }

  function Decimal(n: nat): string
  {
    (if n < 10 then [] else Decimal(n / 10)) + [(n % 10 + '0' as int) as char]
  }

  function RecordKey(item: Item): string
  {
    match item
    case CertificateItem(c) =>
      c.uid + ":" + (if c.role == Server then "server" else "client") + ":" + Decimal(c.chainIndex) + ":" + c.sha256
    case _ => Uid(item)
  }

  function Endpoint(c: Context): string
  {
    if c.flow.Some? && c.flow.value.endpoint.Some? then c.flow.value.endpoint.value else "unknown"
  }

  function ProtocolOf(c: Context): Protocol
  {
    if c.session.None? then Unclassified
    else if c.session.value.protocol == "smtp" then Smtp
    else if c.session.value.protocol == "imap" then Imap
    else if c.session.value.protocol == "pop3" then Pop3
    else Unclassified
  }

  function CategoryOf(target: RecordType): Category
  {
    match target
    case FlowRecord => Transport
    case SessionRecord => MailProtocol
    case HandshakeRecord => TlsHandshake
    case CertificateRecord => Certificates
  }

  /** What is the same for every rule and record of a run. */
  datatype Setting = Setting(w: Semantics, profile: string, packDigest: string, capture: string, time: int)

  function SettingOf(input: Inputs): Setting
  {
    Setting(input.w, input.pack.profile, input.packDigest, input.capture, input.time)
  }

  function Day(time: int): int { time / SECONDS_PER_DAY }

  /** What is hashed into the id of a finding or a check. */
  function IdMaterial(st: Setting, rule: Rule, outcome: string, key: string): seq<string>
  {
    [st.capture, st.profile, st.packDigest, rule.id, outcome, RecordTypeName(rule.target), key]
  }

  function FindingWith(
    st: Setting, rule: Rule, c: Context, key: string, outcome: Outcome, references: seq<Reference>): Finding
  {
    Finding(
      st.w.digest(Bars(IdMaterial(st, rule, OutcomeName(outcome), key))), rule.id, outcome, rule.wording,
      if outcome == Inconclusive then rule.inconclusiveSeverity else rule.negativeSeverity,
      if outcome == Inconclusive then Indeterminate else Verified,
      Basis(references), st.profile, st.packDigest, rule.effectiveFrom, rule.effectiveUntil, st.time, Endpoint(c),
      references)
  }

  function MakeFinding(st: Setting, rule: Rule, c: Context, key: string, outcome: Outcome): Finding
  {
    FindingWith(st, rule, c, key, outcome, References(Pairs(ViewOf(st.w, c), rule), rule.target, key))
  }

  function MakeCheck(
    st: Setting, rule: Rule, c: Context, key: string, outcome: CheckOutcome, state: EvidenceState): Check
  {
    Check(
      st.w.digest(Bars(IdMaterial(st, rule, CheckOutcomeName(outcome), key))),
      rule.id, CategoryOf(rule.target), ProtocolOf(c), Endpoint(c), rule.target, key, outcome, state,
      rule.wording.title)
  }

  /** The finding, if any, that a coverage result calls for. */
  function FindingsFor(st: Setting, rule: Rule, c: Context, key: string, coverage: Coverage): seq<Finding>
  {
    match coverage.result
    case RulePass => []
    case NotApplicable => []
    case RuleIndeterminate => [MakeFinding(st, rule, c, key, Inconclusive)]
    case RuleNegative => [MakeFinding(st, rule, c, key, rule.failOutcome)]
  }

  function ChecksFor(st: Setting, rule: Rule, c: Context, key: string, coverage: Coverage): seq<Check>
  {
    if coverage.check.None? then []
    else [MakeCheck(st, rule, c, key, coverage.check.value.0, coverage.check.value.1)]
  }

  function FindingsAt(st: Setting, roles: seq<Role>, ev: Bundle, rule: Rule, item: Item): seq<Finding>
  {
    var c := ContextOf(st.w, roles, ev, item);
    FindingsFor(st, rule, c, RecordKey(item), EvaluateRule(ViewOf(st.w, c), rule, Day(st.time)))
  }

  function ChecksAt(st: Setting, roles: seq<Role>, ev: Bundle, rule: Rule, item: Item): seq<Check>
  {
    var c := ContextOf(st.w, roles, ev, item);
    ChecksFor(st, rule, c, RecordKey(item), EvaluateRule(ViewOf(st.w, c), rule, Day(st.time)))
  }

  function FindingsOfRule(st: Setting, roles: seq<Role>, ev: Bundle, rule: Rule): seq<Finding>
  {
    if !Active(rule, Day(st.time)) then []
    else FlatMap(item => FindingsAt(st, roles, ev, rule, item), Items(ev, rule.target))
  }

  function ChecksOfRule(st: Setting, roles: seq<Role>, ev: Bundle, rule: Rule): seq<Check>
  {
    if !Active(rule, Day(st.time)) then []
    else FlatMap(item => ChecksAt(st, roles, ev, rule, item), Items(ev, rule.target))
  }

  function RawFindings(st: Setting, roles: seq<Role>, ev: Bundle, rules: seq<Rule>): seq<Finding>
  {
    FlatMap(rule => FindingsOfRule(st, roles, ev, rule), rules)
  }

  function RawChecks(st: Setting, roles: seq<Role>, ev: Bundle, rules: seq<Rule>): seq<Check>
  {
    FlatMap(rule => ChecksOfRule(st, roles, ev, rule), rules)
  }

  function TargetRank(t: RecordType): int
  {
    match t
    case FlowRecord => 0
    case SessionRecord => 1
    case HandshakeRecord => 2
    case CertificateRecord => 3
  }

  function FindingKey(f: Finding): seq<Atom>
  {
    [S(f.endpoint),
     if f.references == [] then N(9) else N(TargetRank(f.references[0].recordType)),
     if f.references == [] then S("") else S(f.references[0].recordKey),
     S(f.code), S(OutcomeName(f.outcome))]
  }

  function CheckKey(c: Check): seq<Atom>
  {
    [S(c.endpoint), S(CategoryName(c.category)), S(c.recordKey), S(c.code), S(CheckOutcomeName(c.outcome))]
  }

  function Findings(input: Inputs): seq<Finding>
  {
    SortBy(ByKey(FindingKey), RawFindings(SettingOf(input), input.pack.roles, input.ev, input.pack.rules))
  }

  function Checks(input: Inputs): seq<Check>
  {
    SortBy(ByKey(CheckKey), RawChecks(SettingOf(input), input.pack.roles, input.ev, input.pack.rules))
  }

  // ---------- The evaluation loop ----------

  lemma IndexSnoc<T>(uid: T -> string, xs: seq<T>, n: nat)
    requires n < |xs|
    ensures IndexLast(uid, xs[..n + 1]) == IndexLast(uid, xs[..n])[uid(xs[n]) := xs[n]]
    ensures IndexFirst(uid, xs[..n + 1]) ==
            var m := IndexFirst(uid, xs[..n]); if uid(xs[n]) in m then m else m[uid(xs[n]) := xs[n]]
  {
    assert xs[..n + 1][..n] == xs[..n];
  }

  method BuildIndexLast<T>(uid: T -> string, xs: seq<T>) returns (m: map<string, T>)
    ensures m == IndexLast(uid, xs)
  {
    m := map[];
    for i := 0 to |xs|
      invariant m == IndexLast(uid, xs[..i])
    {
      IndexSnoc(uid, xs, i);
      m := m[uid(xs[i]) := xs[i]];
    }
    assert xs[..|xs|] == xs;
  }

  method BuildIndexFirst<T>(uid: T -> string, xs: seq<T>) returns (m: map<string, T>)
    ensures m == IndexFirst(uid, xs)
  {
    m := map[];
    for i := 0 to |xs|
      invariant m == IndexFirst(uid, xs[..i])
    {
      IndexSnoc(uid, xs, i);
      if uid(xs[i]) !in m {
        m := m[uid(xs[i]) := xs[i]];
      }
    }
    assert xs[..|xs|] == xs;
  }

  /** Every active rule on every record of its target, then both lists in their published order. */
  method EvaluateBatch(input: Inputs) returns (findings: seq<Finding>, checks: seq<Check>)
    ensures findings == Findings(input) && checks == Checks(input)
  {
    var flowByUid := BuildIndexLast(FlowUid, input.ev.flows);
    var sessionByUid := BuildIndexLast(SessionUid, input.ev.sessions);
    var handshakeByUid := BuildIndexFirst(HandshakeUid, input.ev.handshakes);
    var certificatesByUid := GroupBy(CertificateUid, input.ev.certificates);
    var st, roles, ev, rules := SettingOf(input), input.pack.roles, input.ev, input.pack.rules;
    findings, checks := [], [];
    for i := 0 to |rules|
      invariant findings == RawFindings(st, roles, ev, rules[..i])
      invariant checks == RawChecks(st, roles, ev, rules[..i])
    {
      var rule := rules[i];
      FlatMapSnoc(rule => FindingsOfRule(st, roles, ev, rule), rules, i);
      FlatMapSnoc(rule => ChecksOfRule(st, roles, ev, rule), rules, i);
      if !Active(rule, Day(st.time)) {
        continue;
      }
      var more, moreChecks := EvaluateOne(
        st, roles, ev, rule, flowByUid, sessionByUid, handshakeByUid, certificatesByUid);
      findings, checks := findings + more, checks + moreChecks;
    }
    assert rules[..|rules|] == rules;
    findings := SortBy(ByKey(FindingKey), findings);
    checks := SortBy(ByKey(CheckKey), checks);
  }

  /** The inner loop: one active rule. */
  method EvaluateOne(
    st: Setting, roles: seq<Role>, ev: Bundle, rule: Rule, flowByUid: map<string, Flow>,
    sessionByUid: map<string, Session>,
    handshakeByUid: map<string, Handshake>, certificatesByUid: map<string, seq<Certificate>>)
    returns (findings: seq<Finding>, checks: seq<Check>)
    requires Active(rule, Day(st.time))
    requires flowByUid == IndexLast(FlowUid, ev.flows) && sessionByUid == IndexLast(SessionUid, ev.sessions)
    requires handshakeByUid == IndexFirst(HandshakeUid, ev.handshakes)
    requires forall uid :: Listed(certificatesByUid, uid) == CertificatesOf(ev.certificates, uid)
    ensures findings == FindingsOfRule(st, roles, ev, rule)
    ensures checks == ChecksOfRule(st, roles, ev, rule)
  {
    var items := Items(ev, rule.target);
    ghost var f := item => FindingsAt(st, roles, ev, rule, item);
    ghost var g := item => ChecksAt(st, roles, ev, rule, item);
    findings, checks := [], [];
    for i := 0 to |items|
      invariant findings == FlatMap(f, items[..i])
      invariant checks == FlatMap(g, items[..i])
    {
      FlatMapSnoc(f, items, i);
      FlatMapSnoc(g, items, i);
      var item := items[i];
      var uid := Uid(item);
      var flow, session := Get(flowByUid, uid), Get(sessionByUid, uid);
      var role := ClassifyRole(st.w, roles, flow, session);
      var c := ContextFrom(flow, session, Get(handshakeByUid, uid), Leaf(Listed(certificatesByUid, uid)), role, item);
      assert c == ContextOf(st.w, roles, ev, item);
      var one, oneCheck := Report(st, rule, c, RecordKey(item));
      findings, checks := findings + one, checks + oneCheck;
    }
    assert items[..|items|] == items;
  }

  method ToFinding(st: Setting, rule: Rule, c: Context, key: string, outcome: Outcome) returns (f: Finding)
    ensures f == MakeFinding(st, rule, c, key, outcome)
  {
    var references := CollectReferences(ViewOf(st.w, c), rule, key);
    f := FindingWith(st, rule, c, key, outcome, references);
  }

  /** A coverage result as at most one finding and at most one check. */
  method Emit(st: Setting, rule: Rule, c: Context, key: string, coverage: Coverage)
    returns (findings: seq<Finding>, checks: seq<Check>)
    ensures findings == FindingsFor(st, rule, c, key, coverage) && checks == ChecksFor(st, rule, c, key, coverage)
  {
    findings, checks := [], [];
    if coverage.check.Some? {
      checks := [MakeCheck(st, rule, c, key, coverage.check.value.0, coverage.check.value.1)];
    }
    if coverage.result == RulePass || coverage.result == NotApplicable {
      return;
    }
    var outcome := if coverage.result == RuleIndeterminate then Inconclusive else rule.failOutcome;
    var finding := ToFinding(st, rule, c, key, outcome);
    findings := [finding];
  }

  /** The verdict of one rule on one record. */
  method Report(st: Setting, rule: Rule, c: Context, key: string) returns (findings: seq<Finding>, checks: seq<Check>)
    ensures var coverage := EvaluateRule(ViewOf(st.w, c), rule, Day(st.time));
            && findings == FindingsFor(st, rule, c, key, coverage)
            && checks == ChecksFor(st, rule, c, key, coverage)
  {
    var coverage := Evaluate(ViewOf(st.w, c), rule, Day(st.time));
    findings, checks := Emit(st, rule, c, key, coverage);
  }
}
