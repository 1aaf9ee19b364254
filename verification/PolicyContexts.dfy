/** Which records a rule sees together, when it is in force, and how its findings and checks are labelled. */
module PolicyContexts {
  import opened Prelude
  import opened Sorting
  import opened Keys
  import opened Evidence
  import opened RuleEngine
  import opened PolicyBatch
  import opened DedupTheorems

  // ---------- The context of a record ----------

  /** The entry of a uid is its last record. */
  lemma {:induction false} LastOfUid<T(!new)>(uid: T -> string, xs: seq<T>, i: nat)
    requires i < |xs| && forall j :: i < j < |xs| ==> uid(xs[j]) != uid(xs[i])
    ensures Get(IndexLast(uid, xs), uid(xs[i])) == Some(xs[i])
  {
    var n := |xs| - 1;
    if i < n {
      LastOfUid(uid, xs[..n], i);
    }
  }

  /** The entry of a uid is its first record. */
  lemma {:induction false} FirstOfUid<T(!new)>(uid: T -> string, xs: seq<T>, i: nat)
    requires i < |xs| && forall j :: 0 <= j < i ==> uid(xs[j]) != uid(xs[i])
    ensures Get(IndexFirst(uid, xs), uid(xs[i])) == Some(xs[i])
  {
    var n := |xs| - 1;
    if i < n {
      FirstOfUid(uid, xs[..n], i);
    } else {
      FirstAbsent(uid, xs[..n], uid(xs[i]));
    }
  }

  lemma {:induction false} FirstAbsent<T(!new)>(uid: T -> string, xs: seq<T>, k: string)
    requires forall x :: x in xs ==> uid(x) != k
    ensures k !in IndexFirst(uid, xs)
  {
    if xs != [] {
      FirstAbsent(uid, xs[..|xs| - 1], k);
    }
  }

  lemma {:induction false} LastAbsent<T(!new)>(uid: T -> string, xs: seq<T>, k: string)
    requires forall x :: x in xs ==> uid(x) != k
    ensures k !in IndexLast(uid, xs)
  {
    if xs != [] {
      LastAbsent(uid, xs[..|xs| - 1], k);
    }
  }

  /** A record is evaluated with the last flow and the last session of its uid. */
  lemma FlowOfContext(w: Semantics, roles: seq<Role>, ev: Bundle, item: Item, i: nat)
    requires i < |ev.flows| && ev.flows[i].uid == Uid(item)
    requires forall j :: i < j < |ev.flows| ==> ev.flows[j].uid != Uid(item)
    ensures ContextOf(w, roles, ev, item).flow == Some(ev.flows[i])
  {
    forall j | i < j < |ev.flows| ensures FlowUid(ev.flows[j]) != FlowUid(ev.flows[i]) {
    }
    LastOfUid(FlowUid, ev.flows, i);
  }

  lemma SessionOfContext(w: Semantics, roles: seq<Role>, ev: Bundle, item: Item, i: nat)
    requires i < |ev.sessions| && ev.sessions[i].uid == Uid(item)
    requires forall j :: i < j < |ev.sessions| ==> ev.sessions[j].uid != Uid(item)
    ensures ContextOf(w, roles, ev, item).session == Some(ev.sessions[i])
  {
    forall j | i < j < |ev.sessions| ensures SessionUid(ev.sessions[j]) != SessionUid(ev.sessions[i]) {
    }
    LastOfUid(SessionUid, ev.sessions, i);
  }

  /** A handshake is evaluated with itself, any other record with the first handshake of its uid. */
  lemma HandshakeOfContext(w: Semantics, roles: seq<Role>, ev: Bundle, item: Item, i: nat)
    requires i < |ev.handshakes| && ev.handshakes[i].uid == Uid(item)
    requires forall j :: 0 <= j < i ==> ev.handshakes[j].uid != Uid(item)
    ensures ContextOf(w, roles, ev, item).handshake ==
            Some(match item case HandshakeItem(h) => h case _ => ev.handshakes[i])
  {
    forall j | 0 <= j < i ensures HandshakeUid(ev.handshakes[j]) != HandshakeUid(ev.handshakes[i]) {
    }
    FirstOfUid(HandshakeUid, ev.handshakes, i);
  }

  /** Without a record of its uid the part is empty. */
  lemma MissingFromContext(w: Semantics, roles: seq<Role>, ev: Bundle, item: Item)
    ensures (forall f :: f in ev.flows ==> f.uid != Uid(item)) ==> ContextOf(w, roles, ev, item).flow == None
    ensures (forall s :: s in ev.sessions ==> s.uid != Uid(item)) ==> ContextOf(w, roles, ev, item).session == None
    ensures !item.HandshakeItem? && (forall h :: h in ev.handshakes ==> h.uid != Uid(item)) ==>
              ContextOf(w, roles, ev, item).handshake == None
  {
    if forall f :: f in ev.flows ==> f.uid != Uid(item) {
      LastAbsent(FlowUid, ev.flows, Uid(item));
    }
    if forall s :: s in ev.sessions ==> s.uid != Uid(item) {
      LastAbsent(SessionUid, ev.sessions, Uid(item));
    }
    if forall h :: h in ev.handshakes ==> h.uid != Uid(item) {
      FirstAbsent(HandshakeUid, ev.handshakes, Uid(item));
    }
  }

  /** Server certificates at the start of their chain. */
  predicate Leading(c: Certificate, uid: string)
  {
    c.uid == uid && c.chainIndex == 0 && c.role.Server?
  }

  lemma HasUid(c: Certificate, uid: string)
    ensures HasKey(CertificateUid, uid)(c) <==> c.uid == uid
  {
    var key := HasKey(CertificateUid, uid);
    if key(c) {
      assert CertificateUid(c) == uid;
    }
    if c.uid == uid {
      assert CertificateUid(c) == uid;
      assert key(c);
    }
  }

  lemma ShaOrder(c: Certificate, d: Certificate)
    requires ByKey(Sha)(c, d)
    ensures StrLe(c.sha256, d.sha256)
  {
    assert KeyLe(Sha(c), Sha(d));
    assert AtomLe(Sha(c)[0], Sha(d)[0]);
  }

  /** The leaf of a connection is its server certificate at chain index 0, of several the one of least digest. */
  lemma LeafMeans(certificates: seq<Certificate>, uid: string)
    ensures var leaf := Leaf(CertificatesOf(certificates, uid));
            && (leaf == None <==> forall c :: c in certificates ==> !Leading(c, uid))
            && (leaf.Some? ==> leaf.value in certificates && Leading(leaf.value, uid))
            && (leaf.Some? ==>
                  forall c :: c in certificates && Leading(c, uid) ==> StrLe(leaf.value.sha256, c.sha256))
  {
    var own := CertificatesOf(certificates, uid);
    var leaves := Filter(IsLeaf, own);
    var sorted := SortBy(ByKey(Sha), leaves);
    forall c ensures c in leaves <==> c in certificates && Leading(c, uid) {
      HasUid(c, uid);
    }
    ByKeyOrder(Sha);
    SortSorted(ByKey(Sha), leaves);
    SortMembers(ByKey(Sha), leaves);
    HasMember(leaves);
    if sorted != [] {
      assert sorted[0] in sorted;
      forall c | c in certificates && Leading(c, uid) ensures StrLe(sorted[0].sha256, c.sha256) {
        var k :| 0 <= k < |sorted| && sorted[k] == c;
        if k == 0 {
          StrLeTotal(c.sha256, c.sha256);
        } else {
          ShaOrder(sorted[0], c);
        }
      }
    }
  }

  /** A certificate is evaluated with itself, any other record with the leaf of its uid. */
  lemma CertificateOfContext(w: Semantics, roles: seq<Role>, ev: Bundle, item: Item)
    ensures ContextOf(w, roles, ev, item).certificate ==
            match item case CertificateItem(c) => Some(c) case _ => Leaf(CertificatesOf(ev.certificates, Uid(item)))
  {
  }

  // ---------- Record keys ----------

  lemma {:induction false} DecimalDigits(n: nat)
    ensures Decimal(n) != [] && forall c :: c in Decimal(n) ==> '0' <= c <= '9'
  {
    if n >= 10 {
      DecimalDigits(n / 10);
    }
  }

  lemma {:induction false} DecimalInjective(m: nat, n: nat)
    requires Decimal(m) == Decimal(n)
    ensures m == n
  {
    var a, b := Decimal(m), Decimal(n);
    DecimalDigits(m / 10);
    DecimalDigits(n / 10);
    assert a[|a| - 1] == b[|b| - 1] && a[..|a| - 1] == b[..|b| - 1];
    assert a[|a| - 1] == (m % 10 + '0' as int) as char && b[|b| - 1] == (n % 10 + '0' as int) as char;
    if m >= 10 {
      assert a[..|a| - 1] == Decimal(m / 10);
      assert n >= 10 && b[..|b| - 1] == Decimal(n / 10);
      DecimalInjective(m / 10, n / 10);
    } else {
      assert n < 10;
    }
  }

  function SideName(c: Certificate): string { match c.role case Server => "server" case Client => "client" }

  lemma CertificateKeyIs(c: Certificate)
    ensures RecordKey(CertificateItem(c)) ==
            c.uid + ":" + (SideName(c) + ":" + (Decimal(c.chainIndex) + ":" + c.sha256))
    ensures ':' !in SideName(c) && ':' !in Decimal(c.chainIndex)
  {
    DecimalDigits(c.chainIndex);
  }

  /** Certificates of uids without a colon have equal keys iff uid, side, place in the chain and digest agree. */
  lemma CertificateKeyMeans(c: Certificate, d: Certificate)
    requires ':' !in c.uid && ':' !in d.uid
    ensures RecordKey(CertificateItem(c)) == RecordKey(CertificateItem(d)) <==>
            c.uid == d.uid && c.role == d.role && c.chainIndex == d.chainIndex && c.sha256 == d.sha256
  {
    CertificateKeyIs(c);
    CertificateKeyIs(d);
    if RecordKey(CertificateItem(c)) == RecordKey(CertificateItem(d)) {
      KeyParts(c.uid, SideName(c) + ":" + (Decimal(c.chainIndex) + ":" + c.sha256),
               d.uid, SideName(d) + ":" + (Decimal(d.chainIndex) + ":" + d.sha256));
      KeyParts(SideName(c), Decimal(c.chainIndex) + ":" + c.sha256,
               SideName(d), Decimal(d.chainIndex) + ":" + d.sha256);
      KeyParts(Decimal(c.chainIndex), c.sha256, Decimal(d.chainIndex), d.sha256);
      DecimalInjective(c.chainIndex, d.chainIndex);
      assert SideName(c)[0] == SideName(d)[0];
    }
  }

  // ---------- When a rule is in force ----------

  /** From midnight of its first day to midnight of the day it ends. */
  lemma InForce(rule: Rule, time: int)
    ensures Active(rule, Day(time)) <==>
            && 86400 * rule.effectiveFrom <= time
            && match rule.effectiveUntil
               case Some(until) => time < 86400 * until
               case None => true
  {
    DayMeans(rule.effectiveFrom, time);
    if rule.effectiveUntil.Some? {
      DayMeans(rule.effectiveUntil.value, time);
    }
  }

  lemma DayMeans(day: int, time: int)
    ensures day <= Day(time) <==> 86400 * day <= time
  {
  }

  // ---------- Labels ----------

  /** Which records a rule looks at. */
  lemma TargetsMean(ev: Bundle, target: RecordType, item: Item)
    ensures item in Items(ev, target) <==>
            match item
            case FlowItem(f) => target.FlowRecord? && f in ev.flows
            case SessionItem(s) => target.SessionRecord? && s in ev.sessions
            case HandshakeItem(h) => target.HandshakeRecord? && h in ev.handshakes
            case CertificateItem(c) => target.CertificateRecord? && c in ev.certificates
  {
    MapMembers(f => FlowItem(f), ev.flows, item);
    MapMembers(s => SessionItem(s), ev.sessions, item);
    MapMembers(h => HandshakeItem(h), ev.handshakes, item);
    MapMembers(c => CertificateItem(c), ev.certificates, item);
  }

  lemma CheckLabels(
    st: Setting, rule: Rule, c: Context, key: string, outcome: CheckOutcome, state: EvidenceState)
    ensures var check := MakeCheck(st, rule, c, key, outcome, state);
            && check.code == rule.id && check.recordType == rule.target && check.recordKey == key
            && check.outcome == outcome && check.state == state
            && (check.category == Transport <==> rule.target == FlowRecord)
            && (check.category == MailProtocol <==> rule.target == SessionRecord)
            && (check.category == TlsHandshake <==> rule.target == HandshakeRecord)
            && (check.category == Certificates <==> rule.target == CertificateRecord)
            && (check.protocol == Smtp <==> c.session.Some? && c.session.value.protocol == "smtp")
            && (check.protocol == Imap <==> c.session.Some? && c.session.value.protocol == "imap")
            && (check.protocol == Pop3 <==> c.session.Some? && c.session.value.protocol == "pop3")
            && (c.flow.Some? && c.flow.value.endpoint.Some? ==> Some(check.endpoint) == c.flow.value.endpoint)
            && (c.flow.None? || c.flow.value.endpoint.None? ==> check.endpoint == "unknown")
  {
  }

  lemma FindingLabels(st: Setting, rule: Rule, c: Context, key: string, outcome: Outcome)
    ensures var f := MakeFinding(st, rule, c, key, outcome);
            && f.code == rule.id && f.outcome == outcome && f.wording == rule.wording
            && f.severity == (match outcome
                              case Inconclusive => rule.inconclusiveSeverity
                              case Negative => rule.negativeSeverity)
            && f.evaluationState == (match outcome case Inconclusive => Indeterminate case Negative => Verified)
            && f.profile == st.profile && f.packVersion == st.packDigest && f.evaluationTime == st.time
            && (c.flow.Some? && c.flow.value.endpoint.Some? ==> Some(f.endpoint) == c.flow.value.endpoint)
            && (c.flow.None? || c.flow.value.endpoint.None? ==> f.endpoint == "unknown")
  {
  }

  /** Evidence that a rule's assertion flags as unusable gives no passed check, and a flagged where part no finding. */
  lemma FlaggedRecord(
    st: Setting, roles: seq<Role>, ev: Bundle, rule: Rule, item: Item, p: Predicate, state: EvidenceState)
    requires state in {Incomplete, Conflicting, NotObservable, Indeterminate} && p.statePath.Some?
    requires st.w.lookup(ContextOf(st.w, roles, ev, item), p.statePath.value) == Some(Str(StateName(state)))
    ensures p in rule.assertion ==>
              forall check :: check in ChecksAt(st, roles, ev, rule, item) ==> check.outcome != Passed
    ensures p in rule.wheres ==> FindingsAt(st, roles, ev, rule, item) == []
  {
    FlaggedNeverPasses(st.w, ContextOf(st.w, roles, ev, item), rule, Day(st.time), p, state);
  }

  // ---------- Published order ----------

  lemma FindingOrder(f: Finding, g: Finding)
    requires ByKey(FindingKey)(f, g)
    ensures StrLe(f.endpoint, g.endpoint)
    ensures f.endpoint == g.endpoint && f.references != [] && g.references != [] ==>
              match g.references[0].recordType
              case FlowRecord => f.references[0].recordType == FlowRecord
              case SessionRecord => f.references[0].recordType in {FlowRecord, SessionRecord}
              case HandshakeRecord => f.references[0].recordType != CertificateRecord
              case CertificateRecord => true
  {
    KeyLeAfter(FindingKey(f), FindingKey(g), 0);
    if f.endpoint == g.endpoint {
      assert FindingKey(f)[..1] == FindingKey(g)[..1];
      KeyLeAfter(FindingKey(f), FindingKey(g), 1);
    }
  }

  lemma CheckOrder(c: Check, d: Check)
    requires ByKey(CheckKey)(c, d)
    ensures StrLe(c.endpoint, d.endpoint)
    ensures c.endpoint == d.endpoint ==> StrLe(CategoryName(c.category), CategoryName(d.category))
    ensures c.endpoint == d.endpoint && c.category == d.category ==> StrLe(c.recordKey, d.recordKey)
  {
    KeyLeAfter(CheckKey(c), CheckKey(d), 0);
    if c.endpoint == d.endpoint {
      assert CheckKey(c)[..1] == CheckKey(d)[..1];
      KeyLeAfter(CheckKey(c), CheckKey(d), 1);
      if c.category == d.category {
        assert CheckKey(c)[..2] == CheckKey(d)[..2];
        KeyLeAfter(CheckKey(c), CheckKey(d), 2);
      }
    }
  }

  /** Findings are published by endpoint and kind of record, checks by endpoint, category and record. */
  lemma PublishedInOrder(input: Inputs, i: nat, j: nat)
    requires i < j
    ensures j < |Findings(input)| ==>
              StrLe(Findings(input)[i].endpoint, Findings(input)[j].endpoint)
    ensures j < |Checks(input)| ==>
              StrLe(Checks(input)[i].endpoint, Checks(input)[j].endpoint)
  {
    var fs := RawFindings(SettingOf(input), input.pack.roles, input.ev, input.pack.rules);
    var cs := RawChecks(SettingOf(input), input.pack.roles, input.ev, input.pack.rules);
    ByKeyOrder(FindingKey);
    ByKeyOrder(CheckKey);
    SortSorted(ByKey(FindingKey), fs);
    SortSorted(ByKey(CheckKey), cs);
    if j < |Findings(input)| {
      FindingOrder(Findings(input)[i], Findings(input)[j]);
    }
    if j < |Checks(input)| {
      CheckOrder(Checks(input)[i], Checks(input)[j]);
    }
  }
}
