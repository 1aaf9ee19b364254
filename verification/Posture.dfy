/** Scoring, coverage counts and the published posture. */
module Posture {
  import opened Prelude
  import opened Sorting
  import opened Keys
  import opened Evidence
  import opened Dedup

  // ---------- Scoring ----------

  datatype Exposure = Public | Partner | Internal | Isolated | ExposureUnknown

  datatype Criticality = Critical | HighAsset | MediumAsset | LowAsset | CriticalityUnknown

  datatype BlastRadius = Organization | MultiAsset | SingleEndpoint | BlastUnknown

  datatype Asset = Asset(endpoint: string, exposure: Exposure, criticality: Criticality, blast: BlastRadius)

  datatype Components = Components(
    severity: nat, confidence: nat, exposure: nat, recurrence: nat, criticality: nat, blast: nat)

  const RECURRENCE_STEP := 2
  const RECURRENCE_CAP := 10

  function SeverityPoints(s: Severity): nat
  {
    match s case High => 50 case Medium => 30 case Low => 15 case Informational => 0
  }

  function ConfidencePoints(s: EvidenceState): nat
  {
    match s
    case Verified => 20
    case Observed => 16
    case Inferred => 12
    case Incomplete => 6
    case Conflicting => 3
    case Indeterminate => 2
    case NotObservable => 0
  }

  function ExposurePoints(e: Exposure): nat
  {
    match e case Public => 10 case Partner => 8 case Internal => 5 case Isolated => 2 case ExposureUnknown => 4
  }

  function CriticalityPoints(c: Criticality): nat
  {
    match c case Critical => 5 case HighAsset => 4 case MediumAsset => 3 case LowAsset => 1 case CriticalityUnknown => 2
  }

  function BlastPoints(b: BlastRadius): nat
  {
    match b case Organization => 5 case MultiAsset => 3 case SingleEndpoint => 1 case BlastUnknown => 1
  }

  function RecurrencePoints(unique: nat): nat
    requires unique >= 1
  {
    Min(RECURRENCE_CAP, RECURRENCE_STEP * (unique - 1))
  }

  function Total(c: Components): nat
  {
    c.severity + c.confidence + c.exposure + c.recurrence + c.criticality + c.blast
  }

  function ComponentsOf(c: Cluster, asset: Asset): Components
    requires c.uniqueOccurrences >= 1
  {
    Components(
      SeverityPoints(c.severity), ConfidencePoints(c.basis), ExposurePoints(asset.exposure),
      RecurrencePoints(c.uniqueOccurrences), CriticalityPoints(asset.criticality), BlastPoints(asset.blast))
  }

  function ComputeScore(c: Cluster, asset: Asset): (r: nat)
    requires c.uniqueOccurrences >= 1
    ensures 4 <= r <= 100
  {
    Min(100, Total(ComponentsOf(c, asset)))
  }

  /** The cap at 100 never bites: the published score is the sum of its named addends. */
  lemma ScoreIsSum(c: Cluster, asset: Asset)
    requires c.uniqueOccurrences >= 1
    ensures ComputeScore(c, asset) == Total(ComponentsOf(c, asset))
  {
  }

  /**
   The weights, as differences between two scores that differ in one label only; with the least score, 4, and the
   greatest, 100, they fix every score.
   */
  lemma SeverityWeighs(c: Cluster, asset: Asset)
    requires c.uniqueOccurrences >= 1
    ensures var least := ComputeScore(c.(severity := Informational), asset);
            && ComputeScore(c.(severity := Low), asset) == least + 15
            && ComputeScore(c.(severity := Medium), asset) == least + 30
            && ComputeScore(c.(severity := High), asset) == least + 50
  {
  }

  lemma BasisWeighs(c: Cluster, asset: Asset)
    requires c.uniqueOccurrences >= 1
    ensures var least := ComputeScore(c.(basis := NotObservable), asset);
            && ComputeScore(c.(basis := Indeterminate), asset) == least + 2
            && ComputeScore(c.(basis := Conflicting), asset) == least + 3
            && ComputeScore(c.(basis := Incomplete), asset) == least + 6
            && ComputeScore(c.(basis := Inferred), asset) == least + 12
            && ComputeScore(c.(basis := Observed), asset) == least + 16
            && ComputeScore(c.(basis := Verified), asset) == least + 20
  {
  }

  lemma ExposureWeighs(c: Cluster, asset: Asset)
    requires c.uniqueOccurrences >= 1
    ensures var isolated := ComputeScore(c, asset.(exposure := Isolated));
            && ComputeScore(c, asset.(exposure := ExposureUnknown)) == isolated + 2
            && ComputeScore(c, asset.(exposure := Internal)) == isolated + 3
            && ComputeScore(c, asset.(exposure := Partner)) == isolated + 6
            && ComputeScore(c, asset.(exposure := Public)) == isolated + 8
  {
  }

  lemma CriticalityWeighs(c: Cluster, asset: Asset)
    requires c.uniqueOccurrences >= 1
    ensures var low := ComputeScore(c, asset.(criticality := LowAsset));
            && ComputeScore(c, asset.(criticality := CriticalityUnknown)) == low + 1
            && ComputeScore(c, asset.(criticality := MediumAsset)) == low + 2
            && ComputeScore(c, asset.(criticality := HighAsset)) == low + 3
            && ComputeScore(c, asset.(criticality := Critical)) == low + 4
  {
  }

  lemma BlastWeighs(c: Cluster, asset: Asset)
    requires c.uniqueOccurrences >= 1
    ensures var single := ComputeScore(c, asset.(blast := SingleEndpoint));
            && ComputeScore(c, asset.(blast := BlastUnknown)) == single
            && ComputeScore(c, asset.(blast := MultiAsset)) == single + 2
            && ComputeScore(c, asset.(blast := Organization)) == single + 4
  {
  }

  /** Each further occurrence adds two points, up to the sixth. */
  lemma RecurrenceWeighs(c: Cluster, asset: Asset, unique: nat)
    requires unique >= 1
    ensures ComputeScore(c.(uniqueOccurrences := unique), asset) ==
            ComputeScore(c.(uniqueOccurrences := 1), asset) + if unique <= 6 then 2 * (unique - 1) else 10
  {
  }

  lemma LeastScore(c: Cluster, asset: Asset)
    requires c.uniqueOccurrences == 1 && c.severity == Informational && c.basis == NotObservable
    requires asset.exposure == Isolated && asset.criticality == LowAsset && asset.blast == SingleEndpoint
    ensures ComputeScore(c, asset) == 4
  {
  }

  lemma GreatestScore(c: Cluster, asset: Asset)
    requires c.uniqueOccurrences >= 6 && c.severity == High && c.basis == Verified
    requires asset.exposure == Public && asset.criticality == Critical && asset.blast == Organization
    ensures ComputeScore(c, asset) == 100
  {
  }

  // ---------- Coverage ----------

  datatype Counts = Counts(applicable: nat, passed: nat, failed: nat, unknown: nat, unseen: nat)

  const ZERO := Counts(0, 0, 0, 0, 0)

  datatype Matrix = Matrix(
    overall: Counts, byProtocol: map<Protocol, Counts>, byCategory: map<Category, Counts>,
    byCell: map<Protocol, map<Category, Counts>>)

  function Increment(c: Counts, o: CheckOutcome): Counts
  {
    Counts(
      c.applicable + 1,
      c.passed + if o == Passed then 1 else 0,
      c.failed + if o == Failed then 1 else 0,
      c.unknown + if o == Unknown then 1 else 0,
      c.unseen + if o == Unseen then 1 else 0)
  }

  function Add(a: Counts, b: Counts): Counts
  {
    Counts(a.applicable + b.applicable, a.passed + b.passed, a.failed + b.failed, a.unknown + b.unknown,
      a.unseen + b.unseen)
  }

  function Select(q: Check -> bool, o: CheckOutcome): Check -> bool { (c: Check) => q(c) && c.outcome == o }

  function Size(q: Check -> bool, checks: seq<Check>): nat { |Filter(q, checks)| }

  /** The counts of the checks that `q` selects. */
  function Tally(q: Check -> bool, checks: seq<Check>): Counts
  {
    Counts(
      Size(q, checks), Size(Select(q, Passed), checks), Size(Select(q, Failed), checks),
      Size(Select(q, Unknown), checks), Size(Select(q, Unseen), checks))
  }

  lemma SizeLast(q: Check -> bool, checks: seq<Check>, n: nat)
    requires n < |checks|
    ensures Size(q, checks[..n + 1]) == Size(q, checks[..n]) + if q(checks[n]) then 1 else 0
  {
    FilterSnoc(q, checks, n);
  }

  lemma TallyLast(q: Check -> bool, checks: seq<Check>, n: nat)
    requires n < |checks|
    ensures Tally(q, checks[..n + 1]) ==
            if q(checks[n]) then Increment(Tally(q, checks[..n]), checks[n].outcome) else Tally(q, checks[..n])
  {
    SizeLast(q, checks, n);
    SizeLast(Select(q, Passed), checks, n);
    SizeLast(Select(q, Failed), checks, n);
    SizeLast(Select(q, Unknown), checks, n);
    SizeLast(Select(q, Unseen), checks, n);
  }

  predicate All(c: Check) { true }

  function OfProtocol(p: Protocol): Check -> bool { (c: Check) => c.protocol == p }

  function OfCategory(k: Category): Check -> bool { (c: Check) => c.category == k }

  function OfCell(p: Protocol, k: Category): Check -> bool { (c: Check) => c.protocol == p && c.category == k }

  function At<K>(m: map<K, Counts>, k: K): Counts { if k in m then m[k] else ZERO }

  function Row(m: map<Protocol, map<Category, Counts>>, p: Protocol): map<Category, Counts>
  {
    if p in m then m[p] else map[]
  }

  function Cell(m: map<Protocol, map<Category, Counts>>, p: Protocol, k: Category): Counts { At(Row(m, p), k) }

  /** Each entry counts its checks, and an entry exists only where there are checks to count. */
  ghost predicate RowsCount(m: map<Protocol, Counts>, checks: seq<Check>)
  {
    forall p :: At(m, p) == Tally(OfProtocol(p), checks) && (p in m <==> At(m, p).applicable > 0)
  }

  ghost predicate ColumnsCount(m: map<Category, Counts>, checks: seq<Check>)
  {
    forall k :: At(m, k) == Tally(OfCategory(k), checks) && (k in m <==> At(m, k).applicable > 0)
  }

  ghost predicate CellsCount(m: map<Protocol, map<Category, Counts>>, checks: seq<Check>)
  {
    && (forall p :: p in m <==> Tally(OfProtocol(p), checks).applicable > 0)
    && (forall p, k :: Cell(m, p, k) == Tally(OfCell(p, k), checks))
    && (forall p, k :: k in Row(m, p) <==> Cell(m, p, k).applicable > 0)
  }

  ghost predicate Tallied(m: Matrix, checks: seq<Check>)
  {
    && m.overall == Tally(All, checks) && RowsCount(m.byProtocol, checks)
    && ColumnsCount(m.byCategory, checks) && CellsCount(m.byCell, checks)
  }

  lemma RowsNext(m: map<Protocol, Counts>, checks: seq<Check>, n: nat)
    requires n < |checks| && RowsCount(m, checks[..n])
    ensures var p := checks[n].protocol;
            RowsCount(m[p := Increment(At(m, p), checks[n].outcome)], checks[..n + 1])
  {
    var next := checks[..n + 1];
    var p := checks[n].protocol;
    var m' := m[p := Increment(At(m, p), checks[n].outcome)];
    forall q ensures At(m', q) == Tally(OfProtocol(q), next) && (q in m' <==> At(m', q).applicable > 0) {
      TallyLast(OfProtocol(q), checks, n);
      assert At(m, q) == Tally(OfProtocol(q), checks[..n]);
    }
  }

  lemma ColumnsNext(m: map<Category, Counts>, checks: seq<Check>, n: nat)
    requires n < |checks| && ColumnsCount(m, checks[..n])
    ensures var k := checks[n].category;
            ColumnsCount(m[k := Increment(At(m, k), checks[n].outcome)], checks[..n + 1])
  {
    var next := checks[..n + 1];
    var k := checks[n].category;
    var m' := m[k := Increment(At(m, k), checks[n].outcome)];
    forall q ensures At(m', q) == Tally(OfCategory(q), next) && (q in m' <==> At(m', q).applicable > 0) {
      TallyLast(OfCategory(q), checks, n);
      assert At(m, q) == Tally(OfCategory(q), checks[..n]);
    }
  }

  function Bump(m: map<Protocol, map<Category, Counts>>, c: Check): map<Protocol, map<Category, Counts>>
  {
    var row := Row(m, c.protocol);
    m[c.protocol := row[c.category := Increment(At(row, c.category), c.outcome)]]
  }

  lemma BumpAt(m: map<Protocol, map<Category, Counts>>, c: Check, p: Protocol, k: Category)
    ensures Cell(Bump(m, c), p, k) ==
            if p == c.protocol && k == c.category then Increment(Cell(m, p, k), c.outcome) else Cell(m, p, k)
    ensures k in Row(Bump(m, c), p) <==> k in Row(m, p) || (p == c.protocol && k == c.category)
    ensures p in Bump(m, c) <==> p in m || p == c.protocol
  {
  }

  lemma CellsNext(m: map<Protocol, map<Category, Counts>>, checks: seq<Check>, n: nat)
    requires n < |checks| && CellsCount(m, checks[..n])
    ensures CellsCount(Bump(m, checks[n]), checks[..n + 1])
  {
    var next := checks[..n + 1];
    var m' := Bump(m, checks[n]);
    forall p ensures p in m' <==> Tally(OfProtocol(p), next).applicable > 0 {
      TallyLast(OfProtocol(p), checks, n);
      BumpAt(m, checks[n], p, checks[n].category);
    }
    forall p, k
      ensures Cell(m', p, k) == Tally(OfCell(p, k), next) && (k in Row(m', p) <==> Cell(m', p, k).applicable > 0)
    {
      TallyLast(OfCell(p, k), checks, n);
      BumpAt(m, checks[n], p, k);
      assert Cell(m, p, k) == Tally(OfCell(p, k), checks[..n]);
    }
  }

  method AggregateCoverage(checks: seq<Check>) returns (m: Matrix)
    ensures Tallied(m, checks)
  {
    var overall, byProtocol, byCategory := ZERO, map[], map[];
    var byCell: map<Protocol, map<Category, Counts>> := map[];
    for i := 0 to |checks|
      invariant overall == Tally(All, checks[..i])
      invariant RowsCount(byProtocol, checks[..i])
      invariant ColumnsCount(byCategory, checks[..i])
      invariant CellsCount(byCell, checks[..i])
    {
      var c := checks[i];
      TallyLast(All, checks, i);
      RowsNext(byProtocol, checks, i);
      ColumnsNext(byCategory, checks, i);
      CellsNext(byCell, checks, i);
      overall := Increment(overall, c.outcome);
      byProtocol := byProtocol[c.protocol := Increment(At(byProtocol, c.protocol), c.outcome)];
      byCategory := byCategory[c.category := Increment(At(byCategory, c.category), c.outcome)];
      byCell := Bump(byCell, c);
    }
    assert checks[..|checks|] == checks;
    m := Matrix(overall, byProtocol, byCategory, byCell);
  }

  function WithOutcome(o: CheckOutcome): Check -> bool { (c: Check) => c.outcome == o }

  /** The checks of one protocol and category with one outcome. */
  function InCell(p: Protocol, k: Category, o: CheckOutcome): Check -> bool
  {
    (c: Check) => c.protocol == p && c.category == k && c.outcome == o
  }

  lemma OverallCounts(m: Matrix, checks: seq<Check>)
    requires Tallied(m, checks)
    ensures m.overall.applicable == |checks|
    ensures m.overall.passed == |Filter(WithOutcome(Passed), checks)|
    ensures m.overall.failed == |Filter(WithOutcome(Failed), checks)|
    ensures m.overall.unknown == |Filter(WithOutcome(Unknown), checks)|
    ensures m.overall.unseen == |Filter(WithOutcome(Unseen), checks)|
  {
    assert forall o, c :: Select(All, o)(c) <==> WithOutcome(o)(c);
    FilterAlike(Select(All, Passed), WithOutcome(Passed), checks);
    FilterAlike(Select(All, Failed), WithOutcome(Failed), checks);
    FilterAlike(Select(All, Unknown), WithOutcome(Unknown), checks);
    FilterAlike(Select(All, Unseen), WithOutcome(Unseen), checks);
    FilterAll(All, checks);
  }

  lemma CellSize(checks: seq<Check>, p: Protocol, k: Category, o: CheckOutcome)
    ensures Size(Select(OfCell(p, k), o), checks) == |Filter(InCell(p, k, o), checks)|
  {
    FilterAlike(Select(OfCell(p, k), o), InCell(p, k, o), checks);
  }

  lemma CellCounts(m: Matrix, checks: seq<Check>, p: Protocol, k: Category)
    requires Tallied(m, checks)
    ensures var cell := Cell(m.byCell, p, k);
            && cell.passed == |Filter(InCell(p, k, Passed), checks)|
            && cell.failed == |Filter(InCell(p, k, Failed), checks)|
            && cell.unknown == |Filter(InCell(p, k, Unknown), checks)|
            && cell.unseen == |Filter(InCell(p, k, Unseen), checks)|
  {
    assert Cell(m.byCell, p, k) == Tally(OfCell(p, k), checks);
    CellSize(checks, p, k, Passed);
    CellSize(checks, p, k, Failed);
    CellSize(checks, p, k, Unknown);
    CellSize(checks, p, k, Unseen);
  }

  // ---------- Conservation and order ----------

  function Sum4(a: Counts, b: Counts, c: Counts, d: Counts): Counts { Add(Add(a, b), Add(c, d)) }

  function SumCategories(f: Category -> Counts): Counts
  {
    Sum4(f(Transport), f(MailProtocol), f(TlsHandshake), f(Certificates))
  }

  function SumProtocols(f: Protocol -> Counts): Counts
  {
    Sum4(f(Smtp), f(Imap), f(Pop3), f(Unclassified))
  }

  ghost predicate Splits(whole: Check -> bool, a: Check -> bool, b: Check -> bool)
  {
    forall x :: (whole(x) <==> a(x) || b(x)) && !(a(x) && b(x))
  }

  lemma {:induction false} SizeSplit(whole: Check -> bool, a: Check -> bool, b: Check -> bool, checks: seq<Check>)
    requires Splits(whole, a, b)
    ensures Size(whole, checks) == Size(a, checks) + Size(b, checks)
  {
    if checks != [] {
      SizeSplit(whole, a, b, checks[1..]);
      assert whole(checks[0]) <==> a(checks[0]) || b(checks[0]);
    }
  }

  lemma OutcomeSplit(whole: Check -> bool, a: Check -> bool, b: Check -> bool, o: CheckOutcome, checks: seq<Check>)
    requires Splits(whole, a, b)
    ensures Size(Select(whole, o), checks) == Size(Select(a, o), checks) + Size(Select(b, o), checks)
  {
    SizeSplit(Select(whole, o), Select(a, o), Select(b, o), checks);
  }

  lemma TallySplit(whole: Check -> bool, a: Check -> bool, b: Check -> bool, checks: seq<Check>)
    requires Splits(whole, a, b)
    ensures Tally(whole, checks) == Add(Tally(a, checks), Tally(b, checks))
  {
    SizeSplit(whole, a, b, checks);
    OutcomeSplit(whole, a, b, Passed, checks);
    OutcomeSplit(whole, a, b, Failed, checks);
    OutcomeSplit(whole, a, b, Unknown, checks);
    OutcomeSplit(whole, a, b, Unseen, checks);
  }

  /** The checks that `whole` selects, split by a property with four values. */
  lemma TallyFour(
    whole: Check -> bool, a: Check -> bool, b: Check -> bool, c: Check -> bool, d: Check -> bool, checks: seq<Check>)
    requires forall x :: whole(x) <==> a(x) || b(x) || c(x) || d(x)
    requires forall x :: !(a(x) && b(x)) && !(c(x) && d(x)) && !((a(x) || b(x)) && (c(x) || d(x)))
    ensures Tally(whole, checks) == Sum4(Tally(a, checks), Tally(b, checks), Tally(c, checks), Tally(d, checks))
  {
    var ab, cd := x => a(x) || b(x), x => c(x) || d(x);
    TallySplit(whole, ab, cd, checks);
    TallySplit(ab, a, b, checks);
    TallySplit(cd, c, d, checks);
  }

  function CellsOfRow(m: Matrix, p: Protocol): Category -> Counts { k => Cell(m.byCell, p, k) }

  function CellsOfColumn(m: Matrix, k: Category): Protocol -> Counts { p => Cell(m.byCell, p, k) }

  function RowTotals(m: Matrix): Protocol -> Counts { p => At(m.byProtocol, p) }

  function ColumnTotals(m: Matrix): Category -> Counts { k => At(m.byCategory, k) }

  ghost predicate RowBalanced(m: Matrix, p: Protocol) { SumCategories(CellsOfRow(m, p)) == At(m.byProtocol, p) }

  ghost predicate ColumnBalanced(m: Matrix, k: Category) { SumProtocols(CellsOfColumn(m, k)) == At(m.byCategory, k) }

  /** Cells sum along rows, along columns, and both to the overall counts, for every outcome. */
  ghost predicate Conserved(m: Matrix)
  {
    && (forall p :: RowBalanced(m, p))
    && (forall k :: ColumnBalanced(m, k))
    && SumProtocols(RowTotals(m)) == m.overall
    && SumCategories(ColumnTotals(m)) == m.overall
  }

  lemma RowSum(checks: seq<Check>, p: Protocol, f: Category -> Counts)
    requires forall k :: f(k) == Tally(OfCell(p, k), checks)
    ensures SumCategories(f) == Tally(OfProtocol(p), checks)
  {
    TallyFour(
      OfProtocol(p), OfCell(p, Transport), OfCell(p, MailProtocol), OfCell(p, TlsHandshake), OfCell(p, Certificates),
      checks);
  }

  lemma ColumnSum(checks: seq<Check>, k: Category, f: Protocol -> Counts)
    requires forall p :: f(p) == Tally(OfCell(p, k), checks)
    ensures SumProtocols(f) == Tally(OfCategory(k), checks)
  {
    TallyFour(OfCategory(k), OfCell(Smtp, k), OfCell(Imap, k), OfCell(Pop3, k), OfCell(Unclassified, k), checks);
  }

  lemma RowTotalSum(checks: seq<Check>, f: Protocol -> Counts)
    requires forall p :: f(p) == Tally(OfProtocol(p), checks)
    ensures SumProtocols(f) == Tally(All, checks)
  {
    TallyFour(All, OfProtocol(Smtp), OfProtocol(Imap), OfProtocol(Pop3), OfProtocol(Unclassified), checks);
  }

  lemma ColumnTotalSum(checks: seq<Check>, f: Category -> Counts)
    requires forall k :: f(k) == Tally(OfCategory(k), checks)
    ensures SumCategories(f) == Tally(All, checks)
  {
    TallyFour(
      All, OfCategory(Transport), OfCategory(MailProtocol), OfCategory(TlsHandshake), OfCategory(Certificates), checks);
  }

  lemma RowConserved(m: Matrix, checks: seq<Check>, p: Protocol)
    requires Tallied(m, checks)
    ensures RowBalanced(m, p)
  {
    RowSum(checks, p, CellsOfRow(m, p));
  }

  lemma ColumnConserved(m: Matrix, checks: seq<Check>, k: Category)
    requires Tallied(m, checks)
    ensures ColumnBalanced(m, k)
  {
    ColumnSum(checks, k, CellsOfColumn(m, k));
  }

  lemma TotalsConserved(m: Matrix, checks: seq<Check>)
    requires Tallied(m, checks)
    ensures SumProtocols(RowTotals(m)) == m.overall && SumCategories(ColumnTotals(m)) == m.overall
  {
    RowTotalSum(checks, RowTotals(m));
    ColumnTotalSum(checks, ColumnTotals(m));
  }

  /** The coverage matrix conserves the counts of every outcome. */
  lemma CoverageConserved(m: Matrix, checks: seq<Check>)
    requires Tallied(m, checks)
    ensures Conserved(m)
  {
    forall p ensures RowBalanced(m, p) {
      RowConserved(m, checks, p);
    }
    forall k ensures ColumnBalanced(m, k) {
      ColumnConserved(m, checks, k);
    }
    TotalsConserved(m, checks);
  }

  lemma SizeForgetsOrder(q: Check -> bool, xs: seq<Check>, ys: seq<Check>)
    requires multiset(xs) == multiset(ys)
    ensures Size(q, xs) == Size(q, ys)
  {
    FilterForgetsOrder(q, xs, ys);
    SameMembers(Filter(q, xs), Filter(q, ys));
  }

  lemma TallyForgetsOrder(q: Check -> bool, xs: seq<Check>, ys: seq<Check>)
    requires multiset(xs) == multiset(ys)
    ensures Tally(q, xs) == Tally(q, ys)
  {
    SizeForgetsOrder(q, xs, ys);
    SizeForgetsOrder(Select(q, Passed), xs, ys);
    SizeForgetsOrder(Select(q, Failed), xs, ys);
    SizeForgetsOrder(Select(q, Unknown), xs, ys);
    SizeForgetsOrder(Select(q, Unseen), xs, ys);
  }

  /** Equal entries, presence included. */
  ghost predicate SameEntries<K(!new)>(a: map<K, Counts>, b: map<K, Counts>)
  {
    forall k :: (k in a <==> k in b) && At(a, k) == At(b, k)
  }

  lemma EntriesEqual<K(!new)>(a: map<K, Counts>, b: map<K, Counts>)
    requires SameEntries(a, b)
    ensures a == b
  {
    assert a.Keys == b.Keys;
    forall k | k in a ensures a[k] == b[k] {
      assert At(a, k) == At(b, k);
    }
    MapsEqual(a, b);
  }

  lemma RowsForgetOrder(a: map<Protocol, Counts>, b: map<Protocol, Counts>, xs: seq<Check>, ys: seq<Check>)
    requires RowsCount(a, xs) && RowsCount(b, ys) && multiset(xs) == multiset(ys)
    ensures a == b
  {
    forall p ensures (p in a <==> p in b) && At(a, p) == At(b, p) {
      TallyForgetsOrder(OfProtocol(p), xs, ys);
    }
    EntriesEqual(a, b);
  }

  lemma ColumnsForgetOrder(a: map<Category, Counts>, b: map<Category, Counts>, xs: seq<Check>, ys: seq<Check>)
    requires ColumnsCount(a, xs) && ColumnsCount(b, ys) && multiset(xs) == multiset(ys)
    ensures a == b
  {
    forall k ensures (k in a <==> k in b) && At(a, k) == At(b, k) {
      TallyForgetsOrder(OfCategory(k), xs, ys);
    }
    EntriesEqual(a, b);
  }

  lemma RowForgetsOrder(
    a: map<Protocol, map<Category, Counts>>, b: map<Protocol, map<Category, Counts>>, xs: seq<Check>, ys: seq<Check>,
    p: Protocol)
    requires CellsCount(a, xs) && CellsCount(b, ys) && multiset(xs) == multiset(ys)
    ensures (p in a <==> p in b) && Row(a, p) == Row(b, p)
  {
    TallyForgetsOrder(OfProtocol(p), xs, ys);
    forall k ensures (k in Row(a, p) <==> k in Row(b, p)) && At(Row(a, p), k) == At(Row(b, p), k) {
      TallyForgetsOrder(OfCell(p, k), xs, ys);
      assert Cell(a, p, k) == Cell(b, p, k);
    }
    EntriesEqual(Row(a, p), Row(b, p));
  }

  lemma CellsForgetOrder(
    a: map<Protocol, map<Category, Counts>>, b: map<Protocol, map<Category, Counts>>, xs: seq<Check>, ys: seq<Check>)
    requires CellsCount(a, xs) && CellsCount(b, ys) && multiset(xs) == multiset(ys)
    ensures a == b
  {
    forall p ensures (p in a <==> p in b) && Row(a, p) == Row(b, p) {
      RowForgetsOrder(a, b, xs, ys, p);
    }
    assert a.Keys == b.Keys;
    forall p | p in a ensures a[p] == b[p] {
      assert Row(a, p) == Row(b, p);
    }
    MapsEqual(a, b);
  }

  /** The matrix depends on the checks only, not on their order. */
  lemma CoverageForgetsOrder(m: Matrix, m': Matrix, xs: seq<Check>, ys: seq<Check>)
    requires Tallied(m, xs) && Tallied(m', ys) && multiset(xs) == multiset(ys)
    ensures m == m'
  {
    TallyForgetsOrder(All, xs, ys);
    RowsForgetOrder(m.byProtocol, m'.byProtocol, xs, ys);
    ColumnsForgetOrder(m.byCategory, m'.byCategory, xs, ys);
    CellsForgetOrder(m.byCell, m'.byCell, xs, ys);
  }
}
