/** Endpoint windows and the past that a scorer may look at. */
module Windows {
  import opened Prelude
  import opened Sorting
  import opened Keys

  /** `features` stands for the rates and labels that only the feature functions read. */
  datatype Window = Window(
    endpoint: string, site: string, role: string, day: nat, sessionCount: nat, incompleteRate: real, qualityOk: bool,
    maintenance: bool, isNew: bool, features: string)

  const MIN_SESSION_COUNT := 10
  const MIN_HISTORY_WINDOWS := 14
  const INCOMPLETE_RATE_GATE: real := 0.40

  type Cohort = (string, string)

  function EndpointOf(w: Window): string { w.endpoint }

  function CohortOf(w: Window): Cohort { (w.site, w.role) }

  predicate ByDay(a: Window, b: Window) { a.day <= b.day }

  function EarlierThan(day: int): Window -> bool { (w: Window) => w.day < day }

  /** The windows of strictly earlier days. */
  function Before(windows: seq<Window>, day: int): seq<Window> { Filter(EarlierThan(day), windows) }

  /** A series as the scorers keep it: the windows of one key in day order. */
  function Series<K(==)>(key: Window -> K, windows: seq<Window>, k: K): seq<Window>
  {
    SortBy(ByDay, Group(key, windows, k))
  }

  function History(windows: seq<Window>, w: Window): seq<Window>
  {
    Before(Series(EndpointOf, windows, w.endpoint), w.day)
  }

  function Peers(windows: seq<Window>, w: Window): seq<Window>
  {
    Before(Series(CohortOf, windows, CohortOf(w)), w.day)
  }

  datatype Skip = InsufficientSupport | InsufficientHistory | CaptureQuality

  function SkipReason(w: Window, history: seq<Window>): Option<Skip>
  {
    if w.sessionCount < MIN_SESSION_COUNT then Some(InsufficientSupport)
    else if |history| < MIN_HISTORY_WINDOWS then Some(InsufficientHistory)
    else if !w.qualityOk || w.incompleteRate > INCOMPLETE_RATE_GATE then Some(CaptureQuality)
    else None
  }

  lemma ByDayOrder()
    ensures TotalPreorder(ByDay)
  {
  }

  lemma FiltersCommute(p: Window -> bool, q: Window -> bool, windows: seq<Window>)
    ensures Filter(p, Filter(q, windows)) == Filter(q, Filter(p, windows))
  {
    var both := w => p(w) && q(w);
    FilterFilter(p, q, both, windows);
    FilterFilter(q, p, both, windows);
  }

  /** Cutting a series at a day is the series of the cut list: a stable sort commutes with filtering. */
  lemma SeriesBefore<K>(key: Window -> K, windows: seq<Window>, k: K, day: int)
    ensures Before(Series(key, windows, k), day) == Series(key, Before(windows, day), k)
  {
    ByDayOrder();
    FilterSort(EarlierThan(day), ByDay, Group(key, windows, k));
    FiltersCommute(EarlierThan(day), HasKey(key, k), windows);
  }

  lemma BeforeBefore(windows: seq<Window>, d: int, e: int)
    requires d <= e
    ensures Before(Before(windows, e), d) == Before(windows, d)
  {
    FilterFilter(EarlierThan(d), EarlierThan(e), EarlierThan(d), windows);
  }

  /** The past of a window is a function of the strictly earlier windows. */
  lemma PastIsCausal(xs: seq<Window>, ys: seq<Window>, w: Window)
    requires Before(xs, w.day) == Before(ys, w.day)
    ensures History(xs, w) == History(ys, w) && Peers(xs, w) == Peers(ys, w)
  {
    SeriesBefore(EndpointOf, xs, w.endpoint, w.day);
    SeriesBefore(EndpointOf, ys, w.endpoint, w.day);
    SeriesBefore(CohortOf, xs, CohortOf(w), w.day);
    SeriesBefore(CohortOf, ys, CohortOf(w), w.day);
  }

  lemma SameEndpoint(w: Window, x: Window)
    ensures HasKey(EndpointOf, w.endpoint)(x) <==> x.endpoint == w.endpoint
  {
    var own := HasKey(EndpointOf, w.endpoint);
    assert own(x) <==> EndpointOf(x) == w.endpoint;
  }

  lemma SameCohort(w: Window, x: Window)
    ensures HasKey(CohortOf, CohortOf(w))(x) <==> x.site == w.site && x.role == w.role
  {
    var own := HasKey(CohortOf, CohortOf(w));
    assert own(x) <==> CohortOf(x) == CohortOf(w);
  }

  /** The history of a window is its endpoint on earlier days, its peers are those of its site and role. */
  lemma PastMeans(windows: seq<Window>, w: Window, x: Window)
    ensures x in History(windows, w) <==> x in windows && x.endpoint == w.endpoint && x.day < w.day
    ensures x in Peers(windows, w) <==> x in windows && x.site == w.site && x.role == w.role && x.day < w.day
  {
    SameEndpoint(w, x);
    SameCohort(w, x);
    SortMembers(ByDay, Group(EndpointOf, windows, w.endpoint));
    SortMembers(ByDay, Group(CohortOf, windows, CohortOf(w)));
  }

  /** The past comes oldest first. */
  lemma PastInOrder(windows: seq<Window>, w: Window, i: nat, j: nat)
    requires i < j
    ensures j < |History(windows, w)| ==> History(windows, w)[i].day <= History(windows, w)[j].day
    ensures j < |Peers(windows, w)| ==> Peers(windows, w)[i].day <= Peers(windows, w)[j].day
  {
    ByDayOrder();
    SeriesBefore(EndpointOf, windows, w.endpoint, w.day);
    SeriesBefore(CohortOf, windows, CohortOf(w), w.day);
    SortSorted(ByDay, Group(EndpointOf, Before(windows, w.day), w.endpoint));
    SortSorted(ByDay, Group(CohortOf, Before(windows, w.day), CohortOf(w)));
  }

  /** Ten sessions, fourteen earlier windows, and a capture of good quality with at most forty percent incomplete. */
  lemma SkipMeans(w: Window, history: seq<Window>)
    ensures SkipReason(w, history) == None <==>
            w.sessionCount >= 10 && |history| >= 14 && w.qualityOk && w.incompleteRate <= 0.4
    ensures SkipReason(w, history) == Some(InsufficientSupport) <==> w.sessionCount < 10
    ensures SkipReason(w, history) == Some(InsufficientHistory) <==> w.sessionCount >= 10 && |history| < 14
  {
  }

  method SortSeries<K(==, !new)>(grouped: map<K, seq<Window>>) returns (sorted: map<K, seq<Window>>)
    ensures forall k :: Listed(sorted, k) == SortBy(ByDay, Listed(grouped, k))
  {
    sorted := map k | k in grouped :: SortBy(ByDay, grouped[k]);
  }

  /** The dictionaries the scorers build. */
  method BuildSeries(windows: seq<Window>)
    returns (byEndpoint: map<string, seq<Window>>, byCohort: map<Cohort, seq<Window>>)
    ensures forall k :: Listed(byEndpoint, k) == Series(EndpointOf, windows, k)
    ensures forall k :: Listed(byCohort, k) == Series(CohortOf, windows, k)
  {
    var e := GroupBy(EndpointOf, windows);
    var c := GroupBy(CohortOf, windows);
    byEndpoint := SortSeries(e);
    byCohort := SortSeries(c);
  }
}
