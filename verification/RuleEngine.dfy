/**
 Rule evaluation: predicates over evidence are three-valued, a rule applies them as a strong-Kleene conjunction,
 and a finding cites every predicate it rests on.

 Evidence paths are resolved by `lookup` and values compared by `compare`, both parameters; `compare` is None where
 the engine rejects the operands.
 */
module RuleEngine {
  import opened Prelude
  import opened Sorting
  import opened Keys
  import opened Evidence

  datatype Value = Str(s: string) | Bool(b: bool) | Int(n: int) | List(items: seq<Value>)

  datatype Operator = Eq | NotEq | In | NotIn | Lt | Lte | Gt | Gte | ContainsAny | ContainsNone

  datatype Predicate = Predicate(path: string, operator: Operator, value: Value, statePath: Option<string>)

  // ---------- Records and contexts ----------

  /** `content` stands for the fields that only `lookup` reads. */
  datatype Flow = Flow(uid: string, endpoint: Option<string>, content: string)

  datatype Session = Session(uid: string, protocol: string, content: string)

  datatype Handshake = Handshake(uid: string, content: string)

  datatype CertificateRole = Server | Client

  datatype Certificate = Certificate(
    uid: string, role: CertificateRole, chainIndex: nat, sha256: string, content: string)

  /** The evidence around one record; `role` is None where the derived part is empty. */
  datatype Context = Context(
    flow: Option<Flow>, session: Option<Session>, handshake: Option<Handshake>, certificate: Option<Certificate>,
    role: Option<string>)

  datatype Semantics = Semantics(
    lookup: (Context, string) -> Option<Value>,
    compare: (Operator, Value, Value) -> Option<bool>,
    digest: string -> string)

  // ---------- Predicates ----------

  datatype Tri = Pass | Fail | Unusable

  predicate IsUnusableName(s: string)
  {
    s in {"incomplete", "conflicting", "not_observable", "indeterminate"}
  }

  function EvalPredicate(w: Semantics, p: Predicate, c: Context): Tri
  {
    var flagged := p.statePath.Some? && var raw := w.lookup(c, p.statePath.value);
                                       raw.Some? && raw.value.Str? && IsUnusableName(raw.value.s);
    var actual := w.lookup(c, p.path);
    if flagged || actual.None? then Unusable
    else
      match w.compare(p.operator, actual.value, p.value)
      case None => Unusable
      case Some(matched) => if matched then Pass else Fail
  }

  function ParseState(s: string): EvidenceState
  {
    if s == "observed" then Observed
    else if s == "verified" then Verified
    else if s == "inferred" then Inferred
    else if s == "incomplete" then Incomplete
    else if s == "conflicting" then Conflicting
    else if s == "not_observable" then NotObservable
    else Indeterminate
  }

  function BeforeLastDot(path: string): string
  {
    if '.' !in path then path
    else if path[|path| - 1] == '.' then path[..|path| - 1]
    else BeforeLastDot(path[..|path| - 1])
  }

  function BeforeFirstDot(path: string): string
  {
    if path == [] || path[0] == '.' then [] else [path[0]] + BeforeFirstDot(path[1..])
  }

  predicate EndsWith(s: string, suffix: string)
  {
    |suffix| <= |s| && s[|s| - |suffix|..] == suffix
  }

  function StateForPath(w: Semantics, c: Context, path: string): EvidenceState
  {
    var own := w.lookup(c, path);
    var sibling := w.lookup(c, BeforeLastDot(path) + ".evidence_state");
    var root := w.lookup(c, BeforeFirstDot(path) + ".evidence_state");
    if EndsWith(path, "evidence_state") && own.Some? && own.value.Str? then ParseState(own.value.s)
    else if sibling.Some? && sibling.value.Str? then ParseState(sibling.value.s)
    else if root.Some? && root.value.Str? then ParseState(root.value.s)
    else if "derived." <= path then Inferred
    else Observed
  }

  /** A usable state cannot vouch for a missing value. */
  function StateOf(w: Semantics, p: Predicate, c: Context): EvidenceState
  {
    var source := if p.statePath.Some? && p.statePath.value != "" then p.statePath.value else p.path;
    var state := StateForPath(w, c, source);
    if w.lookup(c, p.path).None? && state in {Observed, Verified, Inferred} then Indeterminate else state
  }

  lemma ParseNames(state: EvidenceState)
    ensures ParseState(StateName(state)) == state
    ensures StateName(Incomplete) == "incomplete" && StateName(Conflicting) == "conflicting"
    ensures StateName(NotObservable) == "not_observable" && StateName(Indeterminate) == "indeterminate"
  {
  }

  lemma OtherNames(s: string)
    requires forall state :: StateName(state) != s
    ensures ParseState(s) == Indeterminate
  {
    assert forall state :: StateName(state) != s;
    assert StateName(Observed) != s && StateName(Verified) != s && StateName(Inferred) != s;
    assert StateName(Incomplete) != s && StateName(Conflicting) != s && StateName(NotObservable) != s;
  }

  /** The states that make a predicate unusable are exactly those with an unusable name. */
  lemma UnusableNames(s: string)
    ensures IsUnusableName(s) <==>
            s in [StateName(Incomplete), StateName(Conflicting), StateName(NotObservable), StateName(Indeterminate)]
    ensures IsUnusableName(s) ==>
              StateName(ParseState(s)) == s && ParseState(s) in {Incomplete, Conflicting, NotObservable, Indeterminate}
    ensures forall state :: state in {Observed, Verified, Inferred} ==> !IsUnusableName(StateName(state))
  {
  }

  /**
   A flag decides by its state alone: incomplete, conflicting, not observable and indeterminate evidence is unusable
   whatever its value; with observed, verified or inferred evidence the predicate is what it is without a flag.
   */
  lemma FlagDecides(w: Semantics, p: Predicate, c: Context, state: EvidenceState)
    requires p.statePath.Some? && w.lookup(c, p.statePath.value) == Some(Str(StateName(state)))
    ensures if state in {Incomplete, Conflicting, NotObservable, Indeterminate}
            then EvalPredicate(w, p, c) == Unusable
            else EvalPredicate(w, p, c) == EvalPredicate(w, p.(statePath := None), c)
  {
    UnusableNames(StateName(state));
    ParseNames(state);
  }

  /** Without a flag: unusable iff there is no value or the comparison is rejected, and else as compared. */
  lemma UnflaggedPredicate(w: Semantics, p: Predicate, c: Context)
    requires p.statePath == None
    ensures EvalPredicate(w, p, c) == Unusable <==>
            w.lookup(c, p.path).None? || w.compare(p.operator, w.lookup(c, p.path).value, p.value).None?
    ensures EvalPredicate(w, p, c) == Pass <==>
            && w.lookup(c, p.path).Some?
            && w.compare(p.operator, w.lookup(c, p.path).value, p.value) == Some(true)
    ensures EvalPredicate(w, p, c) == Fail <==>
            && w.lookup(c, p.path).Some?
            && w.compare(p.operator, w.lookup(c, p.path).value, p.value) == Some(false)
  {
  }

  /**
   A predicate that its state path makes unusable is reported with exactly that state, and one without a value never
   with a usable state.
   */
  lemma UnusableIsReported(w: Semantics, p: Predicate, c: Context)
    ensures w.lookup(c, p.path).None? ==>
              EvalPredicate(w, p, c) == Unusable
                && StateOf(w, p, c) in {Incomplete, Conflicting, NotObservable, Indeterminate}
    ensures p.statePath.Some? && EndsWith(p.statePath.value, "evidence_state") ==>
              var raw := w.lookup(c, p.statePath.value);
              raw.Some? && raw.value.Str? && IsUnusableName(raw.value.s) ==>
                EvalPredicate(w, p, c) == Unusable && StateName(StateOf(w, p, c)) == raw.value.s
  {
    if p.statePath.Some? && w.lookup(c, p.statePath.value).Some? && w.lookup(c, p.statePath.value).value.Str? {
      UnusableNames(w.lookup(c, p.statePath.value).value.s);
    }
  }

  /** All that a rule sees of a context. */
  datatype View = View(eval: Predicate -> Tri, state: Predicate -> EvidenceState, role: Option<string>)

  function ViewOf(w: Semantics, c: Context): View
  {
    View(p => EvalPredicate(w, p, c), p => StateOf(w, p, c), c.role)
  }

  // ---------- Conjunctions ----------

  /** The strong-Kleene conjunction. */
  function Conjunction(v: View, ps: seq<Predicate>): Tri
  {
    if exists p :: p in ps && v.eval(p) == Fail then Fail
    else if exists p :: p in ps && v.eval(p) == Unusable then Unusable
    else Pass
  }

  function StatesOf(v: View, ps: seq<Predicate>): seq<EvidenceState>
  {
    Map(v.state, ps)
  }

  function UnusableStates(v: View, ps: seq<Predicate>): seq<EvidenceState>
  {
    StatesOf(v, Filter(p => v.eval(p) == Unusable, ps))
  }

  lemma UnusableSnoc(v: View, ps: seq<Predicate>, n: nat)
    requires n < |ps|
    ensures UnusableStates(v, ps[..n + 1]) ==
            if v.eval(ps[n]) == Unusable then UnusableStates(v, ps[..n]) + [v.state(ps[n])]
            else UnusableStates(v, ps[..n])
  {
    MapFilterSnoc(v.state, p => v.eval(p) == Unusable, ps, n);
  }

  /** The loop stops at the first failing predicate, yet computes the conjunction of all of them. */
  method EvalPredicates(v: View, ps: seq<Predicate>) returns (t: Tri, states: seq<EvidenceState>)
    ensures t == Conjunction(v, ps)
    ensures states == if t == Unusable then UnusableStates(v, ps) else []
  {
    if ps == [] {
      return Pass, [];
    }
    var sawUnusable, unusable := false, [];
    for i := 0 to |ps|
      invariant forall j :: 0 <= j < i ==> v.eval(ps[j]) != Fail
      invariant sawUnusable <==> exists j :: 0 <= j < i && v.eval(ps[j]) == Unusable
      invariant unusable == UnusableStates(v, ps[..i])
    {
      UnusableSnoc(v, ps, i);
      var state := v.eval(ps[i]);
      if state == Fail {
        return Fail, [];
      }
      if state == Unusable {
        sawUnusable := true;
        unusable := unusable + [v.state(ps[i])];
      }
    }
    assert ps[..|ps|] == ps;
    if sawUnusable {
      return Unusable, unusable;
    }
    return Pass, [];
  }

  // ---------- Rules ----------

  datatype Rule = Rule(
    id: string, target: RecordType, effectiveFrom: int, effectiveUntil: Option<int>, roles: seq<string>,
    wheres: seq<Predicate>, assertion: seq<Predicate>, failOutcome: Outcome, negativeSeverity: Severity,
    inconclusiveSeverity: Severity, wording: Wording)

  datatype Result = RulePass | RuleNegative | RuleIndeterminate | NotApplicable

  datatype Coverage = Coverage(result: Result, check: Option<(CheckOutcome, EvidenceState)>)

  /** `day` is the date of evaluation; the interval is half open. */
  predicate Active(rule: Rule, day: int)
  {
    rule.effectiveFrom <= day && (rule.effectiveUntil.Some? ==> day < rule.effectiveUntil.value)
  }

  predicate InRole(rule: Rule, role: Option<string>)
  {
    rule.roles == [] || (role.Some? && role.value in rule.roles)
  }

  function CoverageFromUnusable(states: seq<EvidenceState>): (CheckOutcome, EvidenceState)
  {
    if states == [] then (Unknown, Indeterminate)
    else
      var weakest := Weakest(states);
      (if weakest == NotObservable then Unseen else Unknown, weakest)
  }

  function WeakestOrObserved(states: seq<EvidenceState>): EvidenceState
  {
    if states == [] then Observed else Weakest(states)
  }

  /** What a list of predicates says: its truth, its coverage should it be unusable, and its weakest state. */
  datatype Summary = Summary(truth: Tri, unusable: (CheckOutcome, EvidenceState), weakest: EvidenceState)

  function Summarize(v: View, ps: seq<Predicate>): Summary
  {
    Summary(Conjunction(v, ps), CoverageFromUnusable(UnusableStates(v, ps)), WeakestOrObserved(StatesOf(v, ps)))
  }

  /** The verdict on an applicable rule. */
  function Verdict(wheres: Summary, assertion: Summary, failOutcome: Outcome): Coverage
  {
    match (wheres.truth, assertion.truth)
    case (Fail, _) => Coverage(NotApplicable, None)
    case (Unusable, _) => Coverage(NotApplicable, Some(wheres.unusable))
    case (Pass, Pass) => Coverage(RulePass, Some((Passed, assertion.weakest)))
    case (Pass, Unusable) => Coverage(RuleIndeterminate, Some(assertion.unusable))
    case (Pass, Fail) =>
      if failOutcome == Inconclusive then Coverage(RuleIndeterminate, Some((Unknown, assertion.weakest)))
      else Coverage(RuleNegative, Some((Failed, assertion.weakest)))
  }

  function EvaluateRule(v: View, rule: Rule, day: int): Coverage
  {
    if !Active(rule, day) || !InRole(rule, v.role) then Coverage(NotApplicable, None)
    else Verdict(Summarize(v, rule.wheres), Summarize(v, rule.assertion), rule.failOutcome)
  }

  /** The evaluation as the engine runs it: the assertion is looked at only once the where part has passed. */
  method Evaluate(v: View, rule: Rule, day: int) returns (r: Coverage)
    ensures r == EvaluateRule(v, rule, day)
  {
    if !Active(rule, day) {
      return Coverage(NotApplicable, None);
    }
    if rule.roles != [] && (v.role.None? || v.role.value !in rule.roles) {
      return Coverage(NotApplicable, None);
    }
    var wheres, whereUnusable := EvalPredicates(v, rule.wheres);
    if wheres == Fail {
      return Coverage(NotApplicable, None);
    }
    if wheres == Unusable {
      return Coverage(NotApplicable, Some(CoverageFromUnusable(whereUnusable)));
    }
    var assertion, unusable := EvalPredicates(v, rule.assertion);
    var weakest := WeakestOrObserved(StatesOf(v, rule.assertion));
    if assertion == Pass {
      return Coverage(RulePass, Some((Passed, weakest)));
    }
    if assertion == Unusable {
      return Coverage(RuleIndeterminate, Some(CoverageFromUnusable(unusable)));
    }
    if rule.failOutcome == Inconclusive {
      return Coverage(RuleIndeterminate, Some((Unknown, weakest)));
    }
    return Coverage(RuleNegative, Some((Failed, weakest)));
  }

  // ---------- What a verdict means ----------

  predicate AllPass(v: View, ps: seq<Predicate>) { forall p :: p in ps ==> v.eval(p) == Pass }

  predicate SomeFails(v: View, ps: seq<Predicate>) { exists p :: p in ps && v.eval(p) == Fail }

  lemma ConjunctionMeans(v: View, ps: seq<Predicate>)
    ensures Conjunction(v, ps) == Pass <==> AllPass(v, ps)
    ensures Conjunction(v, ps) == Fail <==> SomeFails(v, ps)
  {
  }

  predicate Applies(v: View, rule: Rule, day: int)
  {
    Active(rule, day) && InRole(rule, v.role) && AllPass(v, rule.wheres)
  }

  /**
   A rule passes exactly when it applies and all its assertions hold, and is negative exactly when it applies, some
   assertion fails and the rule does not ask for an inconclusive outcome; the checks say the same.
   */
  lemma VerdictMeans(v: View, rule: Rule, day: int)
    ensures var r := EvaluateRule(v, rule, day);
            && (r.result == RulePass <==> Applies(v, rule, day) && AllPass(v, rule.assertion))
            && (r.result == RuleNegative <==>
                Applies(v, rule, day) && SomeFails(v, rule.assertion) && rule.failOutcome == Negative)
            && (CheckIs(r, Passed) <==> r.result == RulePass)
            && (CheckIs(r, Failed) <==> r.result == RuleNegative)
  {
    ConjunctionMeans(v, rule.wheres);
    ConjunctionMeans(v, rule.assertion);
  }

  /** A rule is silent on a record outside its dates, outside its roles, or when a where predicate fails. */
  lemma SilenceMeans(v: View, rule: Rule, day: int)
    ensures EvaluateRule(v, rule, day) == Coverage(NotApplicable, None) <==>
            || day < rule.effectiveFrom
            || (rule.effectiveUntil.Some? && rule.effectiveUntil.value <= day)
            || (rule.roles != [] && (v.role.None? || v.role.value !in rule.roles))
            || exists p :: p in rule.wheres && v.eval(p) == Fail
  {
    ConjunctionMeans(v, rule.wheres);
  }

  /** The check on unusable evidence: unseen iff the worst that can be said of it is that it was not observable. */
  lemma UnusableCoverage(states: seq<EvidenceState>)
    ensures var (outcome, state) := CoverageFromUnusable(states);
            && (outcome == Unseen <==>
                NotObservable in states && Conflicting !in states && Incomplete !in states && Indeterminate !in states)
            && (outcome != Unseen ==> outcome == Unknown)
            && state == if states == [] then Indeterminate else Weakest(states)
  {
    if states != [] {
      WeakestMeans(states);
    }
  }

  /**
   Flagged evidence never passes: an assertion so flagged leaves no pass and no passed check, and a where predicate so
   flagged leaves the rule not applicable, with neither a passed nor a failed check.
   */
  lemma FlaggedNeverPasses(w: Semantics, c: Context, rule: Rule, day: int, p: Predicate, state: EvidenceState)
    requires p.statePath.Some? && w.lookup(c, p.statePath.value) == Some(Str(StateName(state)))
    requires state in {Incomplete, Conflicting, NotObservable, Indeterminate}
    ensures var r := EvaluateRule(ViewOf(w, c), rule, day);
            && (p in rule.assertion ==> r.result != RulePass && !CheckIs(r, Passed))
            && (p in rule.wheres ==>
                  r.result == NotApplicable && !CheckIs(r, Passed) && !CheckIs(r, Failed))
  {
    FlagDecides(w, p, c, state);
    assert ViewOf(w, c).eval(p) == Unusable;
    VerdictMeans(ViewOf(w, c), rule, day);
    ConjunctionMeans(ViewOf(w, c), rule.wheres);
  }

  // ---------- Where a state is looked for ----------

  lemma {:induction false} LastDot(group: string, field: string)
    requires '.' !in field
    ensures BeforeLastDot(group + "." + field) == group
  {
    var path := group + "." + field;
    assert path[|group|] == '.';
    if field == [] {
      assert path[..|path| - 1] == group;
    } else {
      var n := |field| - 1;
      assert field[n] in field && forall x :: x in field[..n] ==> x in field;
      assert path[..|path| - 1] == group + "." + field[..n];
      LastDot(group, field[..n]);
    }
  }

  lemma {:induction false} FirstDot(group: string, rest: string)
    requires '.' !in group
    ensures BeforeFirstDot(group + "." + rest) == group
  {
    var path := group + "." + rest;
    if group == [] {
      assert path[0] == '.';
    } else {
      assert group[0] in group && forall x :: x in group[1..] ==> x in group;
      assert path[1..] == group[1..] + "." + rest;
      FirstDot(group[1..], rest);
    }
  }

  /** The state of a field is that of its group, else that of the record, else inferred or observed. */
  lemma StateOfField(w: Semantics, c: Context, record: string, group: string, field: string)
    requires '.' !in record && '.' !in field && !EndsWith(record + "." + group + "." + field, "evidence_state")
    ensures var path := record + "." + group + "." + field;
            var near, far := w.lookup(c, record + "." + group + ".evidence_state"),
                             w.lookup(c, record + ".evidence_state");
            StateForPath(w, c, path) ==
            if near.Some? && near.value.Str? then ParseState(near.value.s)
            else if far.Some? && far.value.Str? then ParseState(far.value.s)
            else if "derived." <= path then Inferred else Observed
  {
    LastDot(record + "." + group, field);
    FirstDot(record, group + "." + field);
    assert record + "." + group + "." + field == record + "." + (group + "." + field);
  }

  // ---------- What evaluation depends on ----------

  ghost predicate SamePredicates(a: seq<Predicate>, b: seq<Predicate>)
  {
    forall p :: p in a <==> p in b
  }

  lemma ConjunctionForgetsOrder(v: View, a: seq<Predicate>, b: seq<Predicate>)
    requires SamePredicates(a, b)
    ensures Conjunction(v, a) == Conjunction(v, b)
  {
  }

  lemma SameStates(v: View, a: seq<Predicate>, b: seq<Predicate>)
    requires SamePredicates(a, b)
    ensures StatesOf(v, a) == [] <==> StatesOf(v, b) == []
    ensures StatesOf(v, a) != [] ==> Weakest(StatesOf(v, a)) == Weakest(StatesOf(v, b))
  {
    assert a != [] ==> a[0] in b;
    assert b != [] ==> b[0] in a;
    if a != [] {
      forall s ensures s in StatesOf(v, a) <==> s in StatesOf(v, b) {
        MapMembers(v.state, a, s);
        MapMembers(v.state, b, s);
      }
      WeakestForgetsOrder(StatesOf(v, a), StatesOf(v, b));
    }
  }

  lemma SummaryForgetsOrder(v: View, a: seq<Predicate>, b: seq<Predicate>)
    requires SamePredicates(a, b)
    ensures Summarize(v, a) == Summarize(v, b)
  {
    ConjunctionForgetsOrder(v, a, b);
    SameStates(v, a, b);
    var q := p => v.eval(p) == Unusable;
    SameStates(v, Filter(q, a), Filter(q, b));
  }

  /** Neither the order nor the repetition of predicates changes result, check outcome or coverage state. */
  lemma EvaluationForgetsOrder(v: View, r1: Rule, r2: Rule, day: int)
    requires r2 == r1.(wheres := r2.wheres, assertion := r2.assertion)
    requires SamePredicates(r1.wheres, r2.wheres) && SamePredicates(r1.assertion, r2.assertion)
    ensures EvaluateRule(v, r1, day) == EvaluateRule(v, r2, day)
  {
    SummaryForgetsOrder(v, r1.wheres, r2.wheres);
    SummaryForgetsOrder(v, r1.assertion, r2.assertion);
  }

  /** In `less` every predicate evaluates as in `full`, or has become unusable. */
  ghost predicate LessEvidence(ps: seq<Predicate>, less: View, full: View)
  {
    forall p :: p in ps ==> less.eval(p) in {Unusable, full.eval(p)}
  }

  /** `less` is undecided or the same. */
  predicate Decays(less: Tri, full: Tri) { less == Unusable || less == full }

  lemma ConjunctionMonotone(ps: seq<Predicate>, less: View, full: View)
    requires LessEvidence(ps, less, full)
    ensures Conjunction(less, ps) == Pass ==> Conjunction(full, ps) == Pass
    ensures Conjunction(less, ps) == Fail ==> Conjunction(full, ps) == Fail
    ensures Decays(Summarize(less, ps).truth, Summarize(full, ps).truth)
  {
  }

  predicate CheckIs(c: Coverage, outcome: CheckOutcome) { c.check.Some? && c.check.value.0 == outcome }

  lemma VerdictMonotone(
    lessWheres: Summary, fullWheres: Summary, lessAssertion: Summary, fullAssertion: Summary, failOutcome: Outcome,
    less: Coverage, full: Coverage)
    requires Decays(lessWheres.truth, fullWheres.truth) && Decays(lessAssertion.truth, fullAssertion.truth)
    requires less == Verdict(lessWheres, lessAssertion, failOutcome)
    requires full == Verdict(fullWheres, fullAssertion, failOutcome)
    requires lessWheres.unusable.0 in {Unknown, Unseen} && lessAssertion.unusable.0 in {Unknown, Unseen}
    ensures less.result in {RulePass, RuleNegative} ==> full.result == less.result
    ensures forall o :: o in {Passed, Failed} && CheckIs(less, o) ==> CheckIs(full, o)
  {
  }

  /** Losing evidence never turns into a verdict: a pass or a negative was already there with the fuller evidence. */
  lemma LosingEvidenceNeverDecides(rule: Rule, less: View, full: View, day: int)
    requires LessEvidence(rule.wheres, less, full) && LessEvidence(rule.assertion, less, full)
    requires less.role == full.role
    ensures EvaluateRule(less, rule, day).result in {RulePass, RuleNegative} ==>
              EvaluateRule(full, rule, day).result == EvaluateRule(less, rule, day).result
    ensures forall o :: o in {Passed, Failed} && CheckIs(EvaluateRule(less, rule, day), o) ==>
                          CheckIs(EvaluateRule(full, rule, day), o)
  {
    ConjunctionMonotone(rule.wheres, less, full);
    ConjunctionMonotone(rule.assertion, less, full);
    if Active(rule, day) && InRole(rule, less.role) {
      VerdictMonotone(
        Summarize(less, rule.wheres), Summarize(full, rule.wheres), Summarize(less, rule.assertion),
        Summarize(full, rule.assertion), rule.failOutcome, EvaluateRule(less, rule, day),
        EvaluateRule(full, rule, day));
    }
  }
}
