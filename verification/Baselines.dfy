/**
 The baseline anomaly scorer.  The per-feature statistics are a parameter (`describe`), except the Page-Hinkley drift
 statistic, which is modelled; reals stand for floats.
 */
module Baselines {
  import opened Prelude
  import opened Keys
  import opened Windows

  datatype Contribution = Contribution(feature: string, score: real, detail: string)

  /** The text of a reason is determined by these. */
  datatype Reason = Maintenance | Skipped(skip: Skip) | Cites(top: seq<Contribution>)

  datatype Score = Score(
    endpoint: string, day: nat, value: real, above: bool, suppressed: bool, skip: Option<Skip>,
    contributions: seq<Contribution>, reason: Reason)

  /** Ranked contributions of a window, from its history and its peers. */
  type Describe = (Window, seq<Window>, seq<Window>) -> seq<Contribution>

  const Z_THRESHOLD: real := 3.5

  function Highest(cs: seq<Contribution>): (r: real)
    ensures cs == [] ==> r == 0.0
    ensures forall c :: c in cs ==> c.score <= r
    ensures cs != [] ==> exists c :: c in cs && c.score == r
  {
    if cs == [] then 0.0
    else
      assert cs == [cs[0]] + cs[1..] && cs[0] in cs;
      if |cs| == 1 then cs[0].score
      else
        var rest := Highest(cs[1..]);
        if cs[0].score >= rest then cs[0].score else rest
  }

  function TopThree(cs: seq<Contribution>): seq<Contribution> { if |cs| <= 3 then cs else cs[..3] }

  function ScoreFrom(describe: Describe, w: Window, history: seq<Window>, peers: seq<Window>): Score
  {
    var skip := SkipReason(w, history);
    if w.maintenance then Score(w.endpoint, w.day, 0.0, false, true, None, [], Maintenance)
    else if skip.Some? then Score(w.endpoint, w.day, 0.0, false, false, skip, [], Skipped(skip.value))
    else
      var cs := describe(w, history, peers);
      var value := Highest(cs);
      Score(w.endpoint, w.day, value, value >= Z_THRESHOLD, false, None, TopThree(cs), Cites(TopThree(cs)))
  }

  /** The score of one window within a list of windows. */
  function ScoreOf(describe: Describe, windows: seq<Window>, w: Window): Score
  {
    ScoreFrom(describe, w, History(windows, w), Peers(windows, w))
  }

  method ScoreOne(
    describe: Describe, ghost windows: seq<Window>, w: Window, byEndpoint: map<string, seq<Window>>,
    byCohort: map<Cohort, seq<Window>>)
    returns (s: Score)
    requires Listed(byEndpoint, w.endpoint) == Series(EndpointOf, windows, w.endpoint)
    requires Listed(byCohort, CohortOf(w)) == Series(CohortOf, windows, CohortOf(w))
    ensures s == ScoreOf(describe, windows, w)
  {
    var history := Before(Listed(byEndpoint, w.endpoint), w.day);
    var peers := Before(Listed(byCohort, CohortOf(w)), w.day);
    s := ScoreFrom(describe, w, history, peers);
  }

  function Scorer(describe: Describe, windows: seq<Window>): Window -> Score { w => ScoreOf(describe, windows, w) }

  method ScoreWindows(describe: Describe, windows: seq<Window>) returns (scored: seq<Score>)
    ensures scored == Map(Scorer(describe, windows), windows)
  {
    var byEndpoint, byCohort := BuildSeries(windows);
    scored := [];
    ghost var f := Scorer(describe, windows);
    for i := 0 to |windows|
      invariant scored == Map(f, windows[..i])
    {
      MapSnoc(f, windows, i);
      var one := ScoreOne(describe, windows, windows[i], byEndpoint, byCohort);
      scored := scored + [one];
    }
    assert windows[..|windows|] == windows;
  }

  /**
   What a score says: maintenance suppresses, thin or poor evidence skips, and otherwise a window is above threshold
   iff some contribution reaches 3.5; the first three contributions are cited.
   */
  lemma ScoreMeans(describe: Describe, windows: seq<Window>, w: Window)
    ensures var s := ScoreOf(describe, windows, w);
            var history := History(windows, w);
            var cs := describe(w, history, Peers(windows, w));
            var scored := !w.maintenance && w.sessionCount >= 10 && |history| >= 14 && w.qualityOk &&
                          w.incompleteRate <= 0.4;
            && s.endpoint == w.endpoint && s.day == w.day
            && (s.suppressed <==> w.maintenance)
            && (s.skip.Some? <==> !w.maintenance && !scored)
            && (s.above <==> scored && exists c :: c in cs && c.score >= 3.5)
            && (!scored ==> s.value == 0.0 && s.contributions == [])
            && (scored ==> s.contributions <= cs && |s.contributions| == Min(3, |cs|))
            && (scored && cs != [] ==>
                  (exists c :: c in cs && c.score == s.value) && forall c :: c in cs ==> c.score <= s.value)
  {
    SkipMeans(w, History(windows, w));
  }

  /** Leakage-safe: same-day and later windows change neither score, skip reason, contributions nor reason. */
  lemma ScoringIsCausal(describe: Describe, xs: seq<Window>, ys: seq<Window>, w: Window)
    requires Before(xs, w.day) == Before(ys, w.day)
    ensures ScoreOf(describe, xs, w) == ScoreOf(describe, ys, w)
  {
    PastIsCausal(xs, ys, w);
  }

  /** The same for whole runs: wherever a window stands in two lists that share its past, it gets the same score. */
  lemma RunsAreCausal(describe: Describe, xs: seq<Window>, ys: seq<Window>, i: nat, j: nat)
    requires i < |xs| && j < |ys| && xs[i] == ys[j] && Before(xs, xs[i].day) == Before(ys, xs[i].day)
    ensures Map(Scorer(describe, xs), xs)[i] == Map(Scorer(describe, ys), ys)[j]
  {
    ScoringIsCausal(describe, xs, ys, xs[i]);
  }

  // ---------- Page-Hinkley ----------

  const PAGE_HINKLEY_DELTA: real := 0.02
  const PAGE_HINKLEY_LAMBDA: real := 0.5

  function Sum(xs: seq<real>, n: nat): real
    requires n <= |xs|
  {
    if n == 0 then 0.0 else Sum(xs, n - 1) + xs[n - 1]
  }

  function Mean(xs: seq<real>, n: nat): real
    requires n <= |xs|
  {
    if n == 0 then 0.0 else Sum(xs, n) / (n as real)
  }

  /** How far a value lies above the mean so far, less the tolerance. */
  function Drift(xs: seq<real>, i: nat): real
    requires i < |xs|
  {
    xs[i] - Mean(xs, i + 1) - PAGE_HINKLEY_DELTA
  }

  /** The drift accumulated from `k` up to `n`. */
  function Accumulated(xs: seq<real>, k: nat, n: nat): real
    requires k <= n <= |xs|
    decreases n
  {
    if k == n then 0.0 else Accumulated(xs, k, n - 1) + Drift(xs, n - 1)
  }

  /** `s` is the largest drift accumulated up to `n` from any starting point. */
  ghost predicate LargestDrift(xs: seq<real>, n: nat, s: real)
    requires n <= |xs|
  {
    && (exists k :: 0 <= k <= n && Accumulated(xs, k, n) == s)
    && forall k :: 0 <= k <= n ==> Accumulated(xs, k, n) <= s
  }

  /** Each value adds what it exceeds the mean up to it by, less 0.02. */
  lemma DriftMeans(xs: seq<real>, k: nat, n: nat)
    requires k <= n < |xs|
    ensures Accumulated(xs, k, n + 1) - Accumulated(xs, k, n) == xs[n] - Sum(xs, n + 1) / ((n + 1) as real) - 0.02
  {
  }

  /** The incremental mean is the mean. */
  lemma MeanStep(sum: real, v: real, n: nat, mean: real)
    requires mean == if n == 0 then 0.0 else sum / (n as real)
    requires n == 0 ==> sum == 0.0
    ensures mean + (v - mean) / ((n + 1) as real) == (sum + v) / ((n + 1) as real)
  {
    var c := (n + 1) as real;
    assert mean * (n as real) == sum;
    assert mean * c == sum + mean;
    assert mean == (sum + mean) / c;
    assert (sum + mean) / c + (v - mean) / c == (sum + v) / c;
  }

  lemma DriftStep(xs: seq<real>, n: nat, s: real)
    requires n < |xs| && LargestDrift(xs, n, s)
    ensures LargestDrift(xs, n + 1, if s + Drift(xs, n) > 0.0 then s + Drift(xs, n) else 0.0)
  {
    var next := n + 1;
    var d := Drift(xs, n);
    forall k | 0 <= k <= n ensures Accumulated(xs, k, next) == Accumulated(xs, k, n) + d {
    }
    assert Accumulated(xs, next, next) == 0.0;
    var k :| 0 <= k <= n && Accumulated(xs, k, n) == s;
    assert Accumulated(xs, k, next) == s + d;
  }

  /** The one-pass statistic is the largest drift over all starting points. */
  method PageHinkleyScore(history: seq<real>, current: real) returns (r: real)
    ensures LargestDrift(history + [current], |history| + 1, r * 0.5)
    ensures r >= 0.0
  {
    var values := history + [current];
    var mean, statistic, count := 0.0, 0.0, 0;
    assert Accumulated(values, 0, 0) == 0.0;
    for i := 0 to |values|
      invariant count == i && mean == Mean(values, i)
      invariant LargestDrift(values, i, statistic) && statistic >= 0.0
    {
      var value := values[i];
      MeanStep(Sum(values, i), value, i, mean);
      DriftStep(values, i, statistic);
      count := count + 1;
      mean := mean + (value - mean) / (count as real);
      var moved := statistic + value - mean - PAGE_HINKLEY_DELTA;
      statistic := if moved > 0.0 then moved else 0.0;
    }
    r := statistic / PAGE_HINKLEY_LAMBDA;
  }
}
