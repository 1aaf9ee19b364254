/**
 The refit schedule of the Isolation Forest scorer.  Feature vectors and the fit itself are parameters; the schedule
 decides which day's model was trained on what.
 */
module Refit {
  import opened Prelude
  import opened Sorting
  import opened Keys
  import opened Windows

  const REFIT_EVERY_DAYS := 7
  const MIN_TRAIN_WINDOWS := 40

  type Vector = seq<real>

  type Featurize = (Window, seq<Window>, seq<Window>) -> Vector

  predicate Trainable(windows: seq<Window>, w: Window)
  {
    !w.maintenance && SkipReason(w, History(windows, w)).None?
  }

  function TrainableIn(windows: seq<Window>): Window -> bool { w => Trainable(windows, w) }

  /** What a model fitted on `day` is trained on. */
  function TrainingSet(windows: seq<Window>, day: int): seq<Window>
  {
    Filter(TrainableIn(windows), Before(windows, day))
  }

  function VectorIn(featurize: Featurize, windows: seq<Window>): Window -> Vector
  {
    w => featurize(w, History(windows, w), Peers(windows, w))
  }

  function Vectors(featurize: Featurize, windows: seq<Window>, day: int): seq<Vector>
  {
    Map(VectorIn(featurize, windows), TrainingSet(windows, day))
  }

  function DayOf(w: Window): nat { w.day }

  predicate NatLe(a: nat, b: nat) { a <= b }

  /** The distinct days of the windows, in order. */
  function Days(windows: seq<Window>): seq<nat> { SortBy(NatLe, Firsts(Map(DayOf, windows))) }

  predicate Enough(windows: seq<Window>, day: int) { |TrainingSet(windows, day)| >= MIN_TRAIN_WINDOWS }

  predicate Young(fitted: Option<nat>, day: int) { fitted.Some? && day - fitted.value < REFIT_EVERY_DAYS }

  /** The latest fit after visiting `day`. */
  function NextFit(windows: seq<Window>, last: Option<nat>, day: nat): Option<nat>
  {
    if Young(last, day) then last else if Enough(windows, day) then Some(day) else last
  }

  /** The fit whose model serves `day`. */
  function FitFor(windows: seq<Window>, last: Option<nat>, day: nat): Option<nat>
  {
    if Young(last, day) then last else if Enough(windows, day) then Some(day) else None
  }

  /** The day of the latest fit once the first `n` days have been visited. */
  function LastFit(windows: seq<Window>, days: seq<nat>, n: nat): Option<nat>
    requires n <= |days|
  {
    if n == 0 then None else NextFit(windows, LastFit(windows, days, n - 1), days[n - 1])
  }

  /** The day on which the model used for `days[n]` was fitted, if it has one. */
  function ModelDay(windows: seq<Window>, days: seq<nat>, n: nat): Option<nat>
    requires n < |days|
  {
    FitFor(windows, LastFit(windows, days, n), days[n])
  }

  /** `models` holds the model of each of the first `n` days that has one. */
  ghost predicate Holds<M>(
    featurize: Featurize, fit: seq<Vector> -> M, windows: seq<Window>, days: seq<nat>, n: nat, models: map<nat, M>)
    requires n <= |days|
  {
    && (forall i :: 0 <= i < n && ModelDay(windows, days, i).Some? ==>
          days[i] in models && models[days[i]] == fit(Vectors(featurize, windows, ModelDay(windows, days, i).value)))
    && forall d :: d in models ==> exists i :: 0 <= i < n && days[i] == d && ModelDay(windows, days, i).Some?
  }

  ghost predicate StrictlyIncreasing(days: seq<nat>) { forall i, j :: 0 <= i < j < |days| ==> days[i] < days[j] }

  lemma DaysStrict(windows: seq<Window>)
    ensures StrictlyIncreasing(Days(windows))
    ensures forall d :: d in Days(windows) <==> exists w :: w in windows && w.day == d
  {
    var ds := Map(DayOf, windows);
    var unique := Firsts(ds);
    FirstsMembers(ds);
    SortMembers(NatLe, unique);
    SortSorted(NatLe, unique);
    forall d: nat ensures d in Days(windows) <==> exists w :: w in windows && w.day == d {
      MapMembers(DayOf, windows, d);
    }
    var sorted := Days(windows);
    DistinctForgetsOrder(unique, sorted);
    forall i, j | 0 <= i < j < |sorted| ensures sorted[i] < sorted[j] {
      assert NatLe(sorted[i], sorted[j]);
    }
  }

  lemma HoldsNext<M(!new)>(
    featurize: Featurize, fit: seq<Vector> -> M, windows: seq<Window>, days: seq<nat>, n: nat, models: map<nat, M>,
    next: map<nat, M>)
    requires n < |days| && StrictlyIncreasing(days) && Holds(featurize, fit, windows, days, n, models)
    requires match ModelDay(windows, days, n)
             case None => next == models
             case Some(f) => next == models[days[n] := fit(Vectors(featurize, windows, f))]
    ensures Holds(featurize, fit, windows, days, n + 1, next)
  {
    forall i | 0 <= i < n + 1 && ModelDay(windows, days, i).Some?
      ensures days[i] in next && next[days[i]] == fit(Vectors(featurize, windows, ModelDay(windows, days, i).value))
    {
      if i < n {
        assert days[i] < days[n];
      }
    }
    forall d | d in next
      ensures exists i :: 0 <= i < n + 1 && days[i] == d && ModelDay(windows, days, i).Some?
    {
      if d in models {
        var i :| 0 <= i < n && days[i] == d && ModelDay(windows, days, i).Some?;
      } else {
        assert days[n] == d;
      }
    }
  }

  /** The two variables of the loop hold the latest model and its fit day. */
  ghost predicate Latest<M>(
    featurize: Featurize, fit: seq<Vector> -> M, windows: seq<Window>, last: Option<nat>, lastFit: Option<M>,
    lastFitDay: int)
  {
    match last
    case None => lastFit.None?
    case Some(f) => lastFitDay == f && lastFit == Some(fit(Vectors(featurize, windows, f)))
  }

  /** The body of the refit loop. */
  method VisitDay<M(!new)>(
    featurize: Featurize, fit: seq<Vector> -> M, windows: seq<Window>, day: nat, ghost last: Option<nat>,
    lastFit0: Option<M>, lastFitDay0: int, models0: map<nat, M>)
    returns (lastFit: Option<M>, lastFitDay: int, models: map<nat, M>)
    requires Latest(featurize, fit, windows, last, lastFit0, lastFitDay0)
    ensures Latest(featurize, fit, windows, NextFit(windows, last, day), lastFit, lastFitDay)
    ensures match FitFor(windows, last, day)
            case None => models == models0
            case Some(f) => models == models0[day := fit(Vectors(featurize, windows, f))]
  {
    lastFit, lastFitDay, models := lastFit0, lastFitDay0, models0;
    if lastFit.Some? && day - lastFitDay < REFIT_EVERY_DAYS {
      models := models[day := lastFit.value];
      return;
    }
    var vectors := Vectors(featurize, windows, day);
    if |vectors| < MIN_TRAIN_WINDOWS {
      return;
    }
    lastFit, lastFitDay := Some(fit(vectors)), day;
    models := models[day := lastFit.value];
  }

  method RefitLoop<M(!new)>(featurize: Featurize, fit: seq<Vector> -> M, windows: seq<Window>, days: seq<nat>)
    returns (models: map<nat, M>)
    requires StrictlyIncreasing(days)
    ensures Holds(featurize, fit, windows, days, |days|, models)
  {
    models := map[];
    var lastFit: Option<M> := None;
    var lastFitDay: int := -10000;
    ghost var last: Option<nat> := None;
    for i := 0 to |days|
      invariant last == LastFit(windows, days, i)
      invariant Holds(featurize, fit, windows, days, i, models)
      invariant Latest(featurize, fit, windows, last, lastFit, lastFitDay)
    {
      ghost var was := models;
      lastFit, lastFitDay, models := VisitDay(featurize, fit, windows, days[i], last, lastFit, lastFitDay, models);
      HoldsNext(featurize, fit, windows, days, i, was, models);
      last := NextFit(windows, last, days[i]);
    }
  }

  method FitSchedule<M(!new)>(featurize: Featurize, fit: seq<Vector> -> M, windows: seq<Window>)
    returns (models: map<nat, M>)
    ensures Holds(featurize, fit, windows, Days(windows), |Days(windows)|, models)
  {
    DaysStrict(windows);
    models := RefitLoop(featurize, fit, windows, Days(windows));
  }

  // ---------- What the schedule promises ----------

  lemma {:induction false} FilterGrows(p: Window -> bool, q: Window -> bool, windows: seq<Window>)
    requires forall w :: p(w) ==> q(w)
    ensures |Filter(p, windows)| <= |Filter(q, windows)|
  {
    if windows != [] {
      FilterGrows(p, q, windows[1..]);
    }
  }

  /** Training sets only grow from day to day. */
  lemma EnoughStays(windows: seq<Window>, a: int, b: int)
    requires a <= b && Enough(windows, a)
    ensures Enough(windows, b)
  {
    var t := TrainableIn(windows);
    var pa, pb := (w: Window) => t(w) && w.day < a, (w: Window) => t(w) && w.day < b;
    FilterFilter(t, EarlierThan(a), pa, windows);
    FilterFilter(t, EarlierThan(b), pb, windows);
    FilterGrows(pa, pb, windows);
  }

  lemma NextFitMeans(windows: seq<Window>, last: Option<nat>, day: nat)
    ensures NextFit(windows, last, day) == last || (NextFit(windows, last, day) == Some(day) && Enough(windows, day))
  {
  }

  /** The latest fit happened on one of the visited days, with enough to train on. */
  lemma {:induction false} LastFitMeans(windows: seq<Window>, days: seq<nat>, n: nat, last: Option<nat>)
    requires n <= |days| && last == LastFit(windows, days, n) && last.Some?
    ensures Enough(windows, last.value) && last.value in days[..n]
  {
    if n > 0 {
      var before, day := LastFit(windows, days, n - 1), days[n - 1];
      NextFitMeans(windows, before, day);
      assert days[..n] == days[..n - 1] + [day];
      if last == before {
        LastFitMeans(windows, days, n - 1, before);
      }
    }
  }

  /**
   A day has a model exactly when enough trainable windows lie strictly before it; its model was fitted on that day or
   on an earlier day of the run less than seven days before, from windows strictly before the fit day.
   */
  lemma ModelsAreFresh(windows: seq<Window>, days: seq<nat>, n: nat)
    requires n < |days| && StrictlyIncreasing(days)
    ensures ModelDay(windows, days, n).Some? <==> |TrainingSet(windows, days[n])| >= 40
    ensures ModelDay(windows, days, n).Some? ==>
              var f := ModelDay(windows, days, n).value;
              f in days && f <= days[n] < f + 7 && forall w :: w in TrainingSet(windows, f) ==> w.day < f
  {
    var last := LastFit(windows, days, n);
    if last.Some? {
      LastFitMeans(windows, days, n, last);
      var i :| 0 <= i < n && days[..n][i] == last.value;
      assert days[i] < days[n];
      EnoughStays(windows, last.value, days[n]);
    }
  }

  /** The windows trained on: earlier ones, out of maintenance, that a scorer would not have skipped. */
  lemma TrainingMeans(windows: seq<Window>, day: int, w: Window)
    ensures w in TrainingSet(windows, day) <==>
            && w in windows && w.day < day && !w.maintenance
            && w.sessionCount >= 10 && |History(windows, w)| >= 14 && w.qualityOk && w.incompleteRate <= 0.4
  {
    SkipMeans(w, History(windows, w));
  }

  /** A model is kept for a week, and replaced on the first day after it that has enough to train on. */
  lemma RefitsWeekly(windows: seq<Window>, days: seq<nat>, n: nat)
    requires n + 1 < |days| && StrictlyIncreasing(days) && ModelDay(windows, days, n).Some?
    ensures var f := ModelDay(windows, days, n).value;
            ModelDay(windows, days, n + 1) == Some(if days[n + 1] < f + 7 then f else days[n + 1])
  {
    var next := n + 1;
    ModelsAreFresh(windows, days, n);
    assert LastFit(windows, days, next) == ModelDay(windows, days, n);
    EnoughStays(windows, days[n], days[next]);
  }

  /** Once a day has a model, every later day has one. */
  lemma ModelsStay(windows: seq<Window>, days: seq<nat>, m: nat, n: nat)
    requires m <= n < |days| && StrictlyIncreasing(days) && ModelDay(windows, days, m).Some?
    ensures ModelDay(windows, days, n).Some?
  {
    ModelsAreFresh(windows, days, m);
    ModelsAreFresh(windows, days, n);
    EnoughStays(windows, days[m], days[n]);
  }

  // ---------- Causality ----------

  lemma EarlierPast(xs: seq<Window>, ys: seq<Window>, day: int, w: Window)
    requires Before(xs, day) == Before(ys, day) && w.day <= day
    ensures History(xs, w) == History(ys, w) && Peers(xs, w) == Peers(ys, w)
  {
    BeforeBefore(xs, w.day, day);
    BeforeBefore(ys, w.day, day);
    PastIsCausal(xs, ys, w);
  }

  /** What is trained on a day depends only on the windows before it. */
  lemma TrainingIsCausal(featurize: Featurize, xs: seq<Window>, ys: seq<Window>, day: int, e: int)
    requires Before(xs, day) == Before(ys, day) && e <= day
    ensures TrainingSet(xs, e) == TrainingSet(ys, e) && Vectors(featurize, xs, e) == Vectors(featurize, ys, e)
  {
    BeforeBefore(xs, e, day);
    BeforeBefore(ys, e, day);
    var past := Before(xs, e);
    forall w | w in past
      ensures TrainableIn(xs)(w) == TrainableIn(ys)(w) && VectorIn(featurize, xs)(w) == VectorIn(featurize, ys)(w)
    {
      EarlierPast(xs, ys, day, w);
    }
    FilterAlike(TrainableIn(xs), TrainableIn(ys), past);
    var chosen := TrainingSet(xs, e);
    forall i | 0 <= i < |chosen| ensures VectorIn(featurize, xs)(chosen[i]) == VectorIn(featurize, ys)(chosen[i]) {
      assert chosen[i] in chosen;
    }
  }

  lemma EnoughIsCausal(featurize: Featurize, xs: seq<Window>, ys: seq<Window>, day: int, e: int)
    requires Before(xs, day) == Before(ys, day) && e <= day
    ensures Enough(xs, e) == Enough(ys, e)
  {
    TrainingIsCausal(featurize, xs, ys, day, e);
  }

  lemma SameFit(xs: seq<Window>, ys: seq<Window>, last: Option<nat>, day: nat)
    requires Enough(xs, day) == Enough(ys, day)
    ensures NextFit(xs, last, day) == NextFit(ys, last, day) && FitFor(xs, last, day) == FitFor(ys, last, day)
  {
  }

  lemma {:induction false} LastFitIsCausal(
    featurize: Featurize, xs: seq<Window>, ys: seq<Window>, dx: seq<nat>, dy: seq<nat>, n: nat, day: int)
    requires Before(xs, day) == Before(ys, day) && n <= |dx| && n <= |dy|
    requires forall i :: 0 <= i < n ==> dx[i] == dy[i] && dx[i] <= day
    ensures LastFit(xs, dx, n) == LastFit(ys, dy, n)
  {
    if n > 0 {
      var e := dx[n - 1];
      LastFitIsCausal(featurize, xs, ys, dx, dy, n - 1, day);
      EnoughIsCausal(featurize, xs, ys, day, e);
      SameFit(xs, ys, LastFit(xs, dx, n - 1), e);
    }
  }

  lemma StrictMembers(a: seq<nat>, b: seq<nat>)
    requires StrictlyIncreasing(a) && StrictlyIncreasing(b) && forall x :: x in a <==> x in b
    ensures a == b
  {
    DistinctPermutation(a, b);
    SortedUnique(NatLe, a, b);
  }

  lemma PrefixMembers(days: seq<nat>, i: nat, x: nat)
    requires StrictlyIncreasing(days) && i < |days|
    ensures x in days[..i + 1] <==> x in days && x <= days[i]
  {
    if x in days && x <= days[i] {
      var j :| 0 <= j < |days| && days[j] == x;
      assert j <= i;
      assert days[..i + 1][j] == x;
    }
  }

  /** Two lists that agree before a day visit the same days up to it. */
  lemma SameDays(xs: seq<Window>, ys: seq<Window>, i: nat, j: nat)
    requires i < |Days(xs)| && j < |Days(ys)| && Days(xs)[i] == Days(ys)[j]
    requires Before(xs, Days(xs)[i]) == Before(ys, Days(xs)[i])
    ensures Days(xs)[..i + 1] == Days(ys)[..j + 1] && i == j
  {
    var dx, dy := Days(xs), Days(ys);
    var day := dx[i];
    DaysStrict(xs);
    DaysStrict(ys);
    var px, py := dx[..i + 1], dy[..j + 1];
    forall x: nat ensures x in px <==> x in py {
      PrefixMembers(dx, i, x);
      PrefixMembers(dy, j, x);
      assert day in dx && day in dy;
      if x < day {
        EarlierDay(xs, day, x);
        EarlierDay(ys, day, x);
      }
    }
    StrictMembers(px, py);
    assert |px| == |py|;
  }

  lemma EarlierDay(windows: seq<Window>, day: int, x: nat)
    requires x < day
    ensures x in Days(windows) <==> exists w :: w in Before(windows, day) && w.day == x
  {
    DaysStrict(windows);
    if w :| w in windows && w.day == x {
      assert w in Before(windows, day);
    }
  }

  /** The model of a day, like its fit day, depends only on the windows strictly before that day. */
  lemma ModelsAreCausal(featurize: Featurize, xs: seq<Window>, ys: seq<Window>, i: nat, j: nat)
    requires i < |Days(xs)| && j < |Days(ys)| && Days(xs)[i] == Days(ys)[j]
    requires Before(xs, Days(xs)[i]) == Before(ys, Days(xs)[i])
    ensures ModelDay(xs, Days(xs), i) == ModelDay(ys, Days(ys), j)
    ensures ModelDay(xs, Days(xs), i).Some? ==>
              var f := ModelDay(xs, Days(xs), i).value; Vectors(featurize, xs, f) == Vectors(featurize, ys, f)
  {
    var dx, dy := Days(xs), Days(ys);
    var day := dx[i];
    SameDays(xs, ys, i, j);
    DaysStrict(xs);
    forall k | 0 <= k < i ensures dx[k] == dy[k] && dx[k] <= day {
      assert dx[..i + 1][k] == dy[..j + 1][k];
    }
    LastFitIsCausal(featurize, xs, ys, dx, dy, i, day);
    EnoughIsCausal(featurize, xs, ys, day, day);
    SameFit(xs, ys, LastFit(xs, dx, i), day);
    if ModelDay(xs, dx, i).Some? {
      ModelsAreFresh(xs, dx, i);
      TrainingIsCausal(featurize, xs, ys, day, ModelDay(xs, dx, i).value);
    }
  }
}
