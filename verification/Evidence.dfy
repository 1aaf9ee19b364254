/** The records that policy evaluation, deduplication and scoring exchange. */
module Evidence {
  import opened Prelude

  // ---------- Evidence states ----------

  datatype EvidenceState = Observed | Verified | Inferred | Incomplete | Conflicting | NotObservable | Indeterminate

  /** How strong a state is as evidence; lower is weaker. */
  function StateRank(s: EvidenceState): nat
  {
    match s
    case Conflicting => 0
    case Incomplete => 1
    case Indeterminate => 2
    case NotObservable => 3
    case Inferred => 4
    case Observed => 5
    case Verified => 6
  }

  function StateName(s: EvidenceState): string
  {
    match s
    case Conflicting => "conflicting"
    case Incomplete => "incomplete"
    case Indeterminate => "indeterminate"
    case NotObservable => "not_observable"
    case Inferred => "inferred"
    case Observed => "observed"
    case Verified => "verified"
  }

  /** The first state of least rank. */
  function Weakest(states: seq<EvidenceState>): (r: EvidenceState)
    requires states != []
    ensures r in states
    ensures forall s :: s in states ==> StateRank(r) <= StateRank(s)
  {
    if |states| == 1 then states[0]
    else
      var rest := Weakest(states[1..]);
      if StateRank(states[0]) <= StateRank(rest) then states[0] else rest
  }

  /** The order of weakness, state by state. */
  lemma WeakestMeans(states: seq<EvidenceState>)
    requires states != []
    ensures Weakest(states) ==
            if Conflicting in states then Conflicting
            else if Incomplete in states then Incomplete
            else if Indeterminate in states then Indeterminate
            else if NotObservable in states then NotObservable
            else if Inferred in states then Inferred
            else if Observed in states then Observed
            else Verified
  {
    var r := Weakest(states);
    assert StateRank(Conflicting) < StateRank(Incomplete) < StateRank(Indeterminate) < StateRank(NotObservable);
    assert StateRank(NotObservable) < StateRank(Inferred) < StateRank(Observed) < StateRank(Verified);
  }

  /** Ranks tell states apart, so a state of least rank is the weakest. */
  lemma WeakestUnique(states: seq<EvidenceState>, r: EvidenceState)
    requires r in states && forall s :: s in states ==> StateRank(r) <= StateRank(s)
    ensures r == Weakest(states)
  {
    assert StateRank(r) == StateRank(Weakest(states));
  }

  /** Only the set of states matters. */
  lemma WeakestForgetsOrder(a: seq<EvidenceState>, b: seq<EvidenceState>)
    requires a != [] && b != [] && forall s :: s in a <==> s in b
    ensures Weakest(a) == Weakest(b)
  {
    WeakestUnique(b, Weakest(a));
  }

  // ---------- Findings and checks ----------

  datatype RecordType = FlowRecord | SessionRecord | HandshakeRecord | CertificateRecord

  function RecordTypeName(t: RecordType): string
  {
    match t
    case FlowRecord => "flow"
    case SessionRecord => "session"
    case HandshakeRecord => "handshake"
    case CertificateRecord => "certificate"
  }

  datatype Outcome = Negative | Inconclusive

  function OutcomeName(o: Outcome): string { if o == Negative then "negative" else "indeterminate" }

  /** Which side of the connection sent something. */
  datatype Direction = Orig | Resp

  datatype Severity = High | Medium | Low | Informational

  datatype Reference = Reference(
    recordType: RecordType, recordKey: string, fieldPath: string, state: EvidenceState, frame: Option<nat>)

  /** The rule's own words, copied to its findings. */
  datatype Wording = Wording(title: string, rationale: string, standards: seq<string>, remediation: string)

  datatype Finding = Finding(
    id: string, code: string, outcome: Outcome, wording: Wording, severity: Severity, evaluationState: EvidenceState,
    basis: EvidenceState, profile: string, packVersion: string, effectiveFrom: int, effectiveUntil: Option<int>,
    evaluationTime: int, endpoint: string, references: seq<Reference>)

  predicate IsNegative(f: Finding) { f.outcome == Negative }

  /** SHA-256 of a text, idealised: no collisions. */
  ghost predicate Injective(digest: string -> string)
  {
    forall x, y :: digest(x) == digest(y) ==> x == y
  }

  /** The parts joined by bars. */
  function Bars(parts: seq<string>): string
  {
    if parts == [] then "" else if |parts| == 1 then parts[0] else parts[0] + "|" + Bars(parts[1..])
  }

  function FirstBar(s: string): nat { if s == [] || s[0] == '|' then 0 else 1 + FirstBar(s[1..]) }

  lemma {:induction false} FirstBarAfter(a: string, x: string)
    requires '|' !in a
    ensures FirstBar(a + "|" + x) == |a|
  {
    var s := a + "|" + x;
    if a != [] {
      assert a[0] in a && forall c :: c in a[1..] ==> c in a;
      assert s[0] == a[0] && s[1..] == a[1..] + "|" + x;
      FirstBarAfter(a[1..], x);
    }
  }

  /** Up to the first bar two texts agree only if the parts before it do. */
  lemma SplitAtBar(a: string, x: string, b: string, y: string)
    requires '|' !in a && '|' !in b && a + "|" + x == b + "|" + y
    ensures a == b && x == y
  {
    FirstBarAfter(a, x);
    FirstBarAfter(b, y);
    var s, t := a + "|" + x, b + "|" + y;
    assert a == s[..|a|] && b == t[..|b|] && x == s[|a| + 1..] && y == t[|b| + 1..];
  }

  /** The number of characters after the last bar. */
  function AfterLastBar(s: string): nat
  {
    if s == [] || s[|s| - 1] == '|' then 0 else 1 + AfterLastBar(s[..|s| - 1])
  }

  lemma {:induction false} AfterLastBarIs(x: string, a: string)
    requires '|' !in a
    ensures AfterLastBar(x + "|" + a) == |a|
  {
    var s := x + "|" + a;
    if a != [] {
      var n := |a| - 1;
      assert a[n] in a && forall c :: c in a[..n] ==> c in a;
      assert s[|s| - 1] == a[n] && s[..|s| - 1] == x + "|" + a[..n];
      AfterLastBarIs(x, a[..n]);
    }
  }

  /** Two texts agree only if the parts after their last bars do. */
  lemma SplitAtLastBar(x: string, a: string, y: string, b: string)
    requires '|' !in a && '|' !in b && x + "|" + a == y + "|" + b
    ensures x == y && a == b
  {
    AfterLastBarIs(x, a);
    AfterLastBarIs(y, b);
    var s, t := x + "|" + a, y + "|" + b;
    assert x == s[..|x|] && y == t[..|y|] && a == s[|x| + 1..] && b == t[|y| + 1..];
  }

  /** Equal texts have equal leading parts, as far as these hold no bar, and equal rests. */
  lemma {:induction false} BarsDetermine(a: seq<string>, b: seq<string>, n: nat)
    requires n < |a| && n < |b| && Bars(a) == Bars(b)
    requires forall i :: 0 <= i < n ==> '|' !in a[i] && '|' !in b[i]
    ensures a[..n] == b[..n] && Bars(a[n..]) == Bars(b[n..])
  {
    if n == 0 {
      assert a[0..] == a && b[0..] == b;
    } else {
      SplitAtBar(a[0], Bars(a[1..]), b[0], Bars(b[1..]));
      BarsDetermine(a[1..], b[1..], n - 1);
      assert a[1..][n - 1..] == a[n..] && b[1..][n - 1..] == b[n..];
      assert a[..n] == [a[0]] + a[1..][..n - 1] && b[..n] == [b[0]] + b[1..][..n - 1];
    }
  }

  /** Leading parts that two texts share cancel out. */
  lemma {:induction false} SkipShared(a: seq<string>, b: seq<string>, n: nat)
    requires n < |a| && n < |b| && a[..n] == b[..n] && Bars(a) == Bars(b)
    ensures Bars(a[n..]) == Bars(b[n..])
  {
    if n == 0 {
      assert a[0..] == a && b[0..] == b;
    } else {
      assert a[0] == a[..n][0] && b[0] == b[..n][0];
      assert Bars(a) == (a[0] + "|") + Bars(a[1..]) && Bars(b) == (a[0] + "|") + Bars(b[1..]);
      assert Bars(a[1..]) == Bars(a)[|a[0]| + 1..] && Bars(b[1..]) == Bars(b)[|a[0]| + 1..];
      assert a[1..][..n - 1] == a[..n][1..] && b[1..][..n - 1] == b[..n][1..];
      SkipShared(a[1..], b[1..], n - 1);
      assert a[1..][n - 1..] == a[n..] && b[1..][n - 1..] == b[n..];
    }
  }

  datatype CheckOutcome = Passed | Failed | Unknown | Unseen

  function CheckOutcomeName(o: CheckOutcome): string
  {
    match o
    case Passed => "pass"
    case Failed => "fail"
    case Unknown => "unknown"
    case Unseen => "not_observable"
  }

  datatype Category = Transport | MailProtocol | TlsHandshake | Certificates

  function CategoryName(c: Category): string
  {
    match c
    case Transport => "transport"
    case MailProtocol => "mail_protocol"
    case TlsHandshake => "tls_handshake"
    case Certificates => "certificate"
  }

  datatype Protocol = Smtp | Imap | Pop3 | Unclassified

  datatype Check = Check(
    id: string, code: string, category: Category, protocol: Protocol, endpoint: string, recordType: RecordType,
    recordKey: string, outcome: CheckOutcome, state: EvidenceState, title: string)
}
