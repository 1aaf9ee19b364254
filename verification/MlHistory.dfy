/**
 The bounded history of endpoint windows: each analysis numbers its windows one day past the stored history and
 appends them; only the last `maxWindows` are kept.
 */
module MlHistory {
  import opened Prelude
  import opened Sorting
  import opened Keys
  import opened Windows

  // ---------- Extraction ----------

  /** A mail session with its responder endpoint, if its flow is known. */
  datatype Row = Row(uid: string, flowEndpoint: Option<string>, content: string)

  /** The rates of an endpoint, from its rows. */
  type Summarize = (string, seq<Row>) -> Window

  function RowEndpoint(r: Row): string { if r.flowEndpoint.Some? then r.flowEndpoint.value else "session:" + r.uid }

  function Endpoints(rows: seq<Row>): seq<string> { SortBy(StrLe, Firsts(Map(RowEndpoint, rows))) }

  function WindowFor(summarize: Summarize, rows: seq<Row>): string -> Window
  {
    e => var mine := Group(RowEndpoint, rows, e);
         summarize(e, mine).(endpoint := e, site := "capture", day := 0, sessionCount := |mine|, isNew := true)
  }

  /** One window per endpoint, in endpoint order. */
  function Extract(summarize: Summarize, rows: seq<Row>): seq<Window>
  {
    Map(WindowFor(summarize, rows), Endpoints(rows))
  }

  method ExtractWindows(summarize: Summarize, rows: seq<Row>) returns (windows: seq<Window>)
    ensures windows == Extract(summarize, rows)
  {
    var grouped := GroupBy(RowEndpoint, rows);
    var endpoints := Endpoints(rows);
    windows := [];
    ghost var f := WindowFor(summarize, rows);
    for i := 0 to |endpoints|
      invariant windows == Map(f, endpoints[..i])
    {
      MapSnoc(f, endpoints, i);
      var mine := Listed(grouped, endpoints[i]);
      var w := summarize(endpoints[i], mine);
      windows := windows + [
        w.(endpoint := endpoints[i], site := "capture", day := 0, sessionCount := |mine|, isNew := true)];
    }
    assert endpoints[..|endpoints|] == endpoints;
  }

  // ---------- Order ----------

  predicate WindowLe(a: Window, b: Window)
  {
    a.day < b.day || (a.day == b.day && StrLe(a.endpoint, b.endpoint))
  }

  predicate Precedes(a: Window, b: Window) { WindowLe(a, b) && (a.day, a.endpoint) != (b.day, b.endpoint) }

  ghost predicate StrictlySorted(ws: seq<Window>) { forall i, j :: 0 <= i < j < |ws| ==> Precedes(ws[i], ws[j]) }

  ghost predicate EndpointsIncrease(ws: seq<Window>)
  {
    forall i, j :: 0 <= i < j < |ws| ==> StrLe(ws[i].endpoint, ws[j].endpoint) && ws[i].endpoint != ws[j].endpoint
  }

  lemma EndpointsSorted(rows: seq<Row>)
    ensures Distinct(Endpoints(rows)) && SortedBy(StrLe, Endpoints(rows))
    ensures Endpoints(rows) == [] <==> rows == []
  {
    var es := Map(RowEndpoint, rows);
    FirstsMembers(es);
    StrLeOrder();
    SortSorted(StrLe, Firsts(es));
    DistinctForgetsOrder(Firsts(es), Endpoints(rows));
  }

  lemma ExtractIncreases(summarize: Summarize, rows: seq<Row>)
    ensures EndpointsIncrease(Extract(summarize, rows))
    ensures Extract(summarize, rows) == [] <==> rows == []
  {
    EndpointsSorted(rows);
    var sorted, windows := Endpoints(rows), Extract(summarize, rows);
    forall i | 0 <= i < |windows| ensures windows[i].endpoint == sorted[i] {
    }
  }

  /** The endpoint of a session: its flow's, or one of its own when the flow is unknown. */
  predicate SpeaksTo(r: Row, endpoint: string)
  {
    match r.flowEndpoint
    case Some(e) => e == endpoint
    case None => "session:" + r.uid == endpoint
  }

  lemma EndpointMeans(r: Row, endpoint: string)
    ensures HasKey(RowEndpoint, endpoint)(r) <==> SpeaksTo(r, endpoint)
  {
    var own := HasKey(RowEndpoint, endpoint);
    assert own(r) <==> RowEndpoint(r) == endpoint;
  }

  lemma {:induction false} RowsOfEndpoint(rows: seq<Row>, endpoint: string)
    ensures Group(RowEndpoint, rows, endpoint) == Filter(r => SpeaksTo(r, endpoint), rows)
  {
    if rows != [] {
      RowsOfEndpoint(rows[1..], endpoint);
      EndpointMeans(rows[0], endpoint);
    }
  }

  /** Each endpoint that a session speaks to has a window, which counts its sessions. */
  lemma ExtractedMeans(summarize: Summarize, rows: seq<Row>)
    ensures forall r :: r in rows ==> exists w :: w in Extract(summarize, rows) && SpeaksTo(r, w.endpoint)
    ensures forall w :: w in Extract(summarize, rows) ==>
              w.day == 0 && w.sessionCount == |Filter(r => SpeaksTo(r, w.endpoint), rows)| > 0
  {
    var es, sorted, windows := Map(RowEndpoint, rows), Endpoints(rows), Extract(summarize, rows);
    FirstsMembers(es);
    SortMembers(StrLe, Firsts(es));
    forall r | r in rows ensures exists w :: w in windows && SpeaksTo(r, w.endpoint) {
      MapMembers(RowEndpoint, rows, RowEndpoint(r));
      var i :| 0 <= i < |sorted| && sorted[i] == RowEndpoint(r);
      assert windows[i] in windows && windows[i].endpoint == sorted[i];
    }
    forall w | w in windows
      ensures w.day == 0 && w.sessionCount == |Filter(r => SpeaksTo(r, w.endpoint), rows)| > 0
    {
      var i :| 0 <= i < |windows| && windows[i] == w;
      assert sorted[i] in sorted && w.endpoint == sorted[i];
      MapMembers(RowEndpoint, rows, w.endpoint);
      RowsOfEndpoint(rows, w.endpoint);
      var r :| r in rows && RowEndpoint(r) == w.endpoint;
      assert r in Filter(r => SpeaksTo(r, w.endpoint), rows);
    }
  }

  // ---------- Store and log as values ----------

  /** The last `n` elements, or all if there are fewer. */
  function Last<T>(xs: seq<T>, n: nat): (r: seq<T>)
    ensures |r| <= n && |r| <= |xs|
  {
    if |xs| <= n then xs else xs[|xs| - n..]
  }

  lemma LastAppend<T>(a: seq<T>, b: seq<T>, n: nat)
    ensures Last(Last(a, n) + b, n) == Last(a + b, n)
  {
  }

  function MaxDay(ws: seq<Window>): (r: nat)
    requires ws != []
    ensures forall w :: w in ws ==> w.day <= r
    ensures exists w :: w in ws && w.day == r
  {
    assert ws == [ws[0]] + ws[1..] && ws[0] in ws;
    if |ws| == 1 then ws[0].day else var rest := MaxDay(ws[1..]); if ws[0].day >= rest then ws[0].day else rest
  }

  function NextDay(history: seq<Window>): nat { if history == [] then 0 else MaxDay(history) + 1 }

  function Assigned(day: nat): Window -> Window { (w: Window) => w.(day := day, site := "local", isNew := day == 0) }

  function AssignDay(windows: seq<Window>, day: nat): seq<Window> { Map(Assigned(day), windows) }

  /** What `load_windows` returns for a stored file. */
  function Loaded(stored: seq<Window>, max: nat): seq<Window> { Last(SortBy(WindowLe, stored), max) }

  /** The file after `append_windows`. */
  function Appended(stored: seq<Window>, batch: seq<Window>, max: nat): seq<Window>
  {
    Last(Loaded(stored, max) + batch, max)
  }

  /** The windows one analysis contributes to a stored history. */
  function Batch(stored: seq<Window>, extracted: seq<Window>, max: nat): seq<Window>
  {
    AssignDay(extracted, NextDay(Loaded(stored, max)))
  }

  /** The history kept is the end of a strictly ordered log. */
  ghost predicate EndOf(stored: seq<Window>, log: seq<Window>, max: nat)
  {
    StrictlySorted(log) && stored == Last(log, max)
  }

  lemma {:induction false} LoadIsIdentity(stored: seq<Window>, log: seq<Window>, max: nat)
    requires EndOf(stored, log, max)
    ensures Loaded(stored, max) == stored
  {
    SortIdentity(WindowLe, stored);
  }

  /** The day after the last one recorded, and 0 without a record. */
  lemma NextDayMeans(history: seq<Window>)
    ensures history == [] ==> NextDay(history) == 0
    ensures history != [] ==> exists w :: w in history && NextDay(history) == w.day + 1
    ensures forall w :: w in history ==> w.day < NextDay(history)
  {
    if history != [] {
      var newest := MaxDay(history);
      var w :| w in history && w.day == newest;
      assert NextDay(history) == w.day + 1;
    }
  }

  /** Numbering sets day and site, marks the windows of day 0 as new, and keeps everything else. */
  lemma AssignedMeans(windows: seq<Window>, day: nat, i: nat)
    requires i < |windows|
    ensures |AssignDay(windows, day)| == |windows|
    ensures var w := AssignDay(windows, day)[i];
            && w.day == day && w.site == "local" && (w.isNew <==> day == 0)
            && w == windows[i].(day := w.day, site := w.site, isNew := w.isNew)
  {
  }

  /** Truncation never lowers the next day: the newest window is kept. */
  lemma NextDaySurvivesTruncation(log: seq<Window>, max: nat)
    requires StrictlySorted(log) && max >= 1
    ensures NextDay(Last(log, max)) == NextDay(log)
  {
    if log != [] {
      var newest := log[|log| - 1];
      var kept := Last(log, max);
      assert kept[|kept| - 1] == newest && newest in kept && newest in log;
      NewestIsMax(log);
      NewestIsMax(kept);
    }
  }

  lemma NewestIsMax(ws: seq<Window>)
    requires ws != [] && StrictlySorted(ws)
    ensures MaxDay(ws) == ws[|ws| - 1].day
  {
    assert ws[|ws| - 1] in ws;
    forall w | w in ws ensures w.day <= ws[|ws| - 1].day {
      var i :| 0 <= i < |ws| && ws[i] == w;
      assert i < |ws| - 1 ==> Precedes(ws[i], ws[|ws| - 1]);
    }
  }

  /** One analysis: the history stays the end of the log, and its windows come one day after everything before. */
  lemma AnalysisExtends(stored: seq<Window>, log: seq<Window>, extracted: seq<Window>, max: nat)
    requires EndOf(stored, log, max) && max >= 1 && EndpointsIncrease(extracted)
    ensures var batch := Batch(stored, extracted, max);
            && batch == AssignDay(extracted, NextDay(log))
            && EndOf(Appended(stored, batch, max), log + batch, max)
            && forall w, b :: w in log && b in batch ==> w.day < b.day
  {
    LoadIsIdentity(stored, log, max);
    NextDaySurvivesTruncation(log, max);
    var batch := Batch(stored, extracted, max);
    LastAppend(log, batch, max);
    forall b | b in batch ensures b.day == NextDay(log) {
      var i :| 0 <= i < |batch| && batch[i] == b;
    }
    forall i, j | 0 <= i < j < |log + batch| ensures Precedes((log + batch)[i], (log + batch)[j]) {
      if i < |log| <= j {
        assert log[i] in log && batch[j - |log|] in batch;
      }
    }
  }

  // ---------- Any run of analyses ----------

  /** The full append log of a run. */
  function LogOf(runs: seq<seq<Window>>): seq<Window>
  {
    if runs == [] then []
    else
      var log := LogOf(runs[..|runs| - 1]);
      log + AssignDay(runs[|runs| - 1], NextDay(log))
  }

  /** The stored file after a run. */
  function StoredAfter(runs: seq<seq<Window>>, max: nat): seq<Window>
  {
    if runs == [] then []
    else
      var stored := StoredAfter(runs[..|runs| - 1], max);
      Appended(stored, Batch(stored, runs[|runs| - 1], max), max)
  }

  /**
   Over any run, the history is the last `max` windows of the log, in strict order, so that reloading sorts nothing.
   */
  lemma {:induction false} HistoryIsEndOfLog(runs: seq<seq<Window>>, max: nat)
    requires max >= 1 && forall r :: r in runs ==> EndpointsIncrease(r)
    ensures EndOf(StoredAfter(runs, max), LogOf(runs), max)
    ensures Loaded(StoredAfter(runs, max), max) == StoredAfter(runs, max)
  {
    if runs != [] {
      var n := |runs| - 1;
      HistoryIsEndOfLog(runs[..n], max);
      assert runs[n] in runs;
      AnalysisExtends(StoredAfter(runs[..n], max), LogOf(runs[..n]), runs[n], max);
    }
    LoadIsIdentity(StoredAfter(runs, max), LogOf(runs), max);
  }

  /** The windows that the `i`-th analysis of a run contributes. */
  function BatchOf(runs: seq<seq<Window>>, i: nat): seq<Window>
    requires i < |runs|
  {
    AssignDay(runs[i], NextDay(LogOf(runs[..i])))
  }

  lemma {:induction false} BatchIsLogged(runs: seq<seq<Window>>, i: nat, w: Window)
    requires i < |runs| && w in BatchOf(runs, i)
    ensures w in LogOf(runs)
  {
    var n := |runs| - 1;
    if i < n {
      assert runs[..n][..i] == runs[..i];
      BatchIsLogged(runs[..n], i, w);
    }
  }

  lemma BatchDay(runs: seq<seq<Window>>, i: nat, w: Window)
    requires i < |runs| && w in BatchOf(runs, i)
    ensures w.day == NextDay(LogOf(runs[..i]))
  {
    var batch := BatchOf(runs, i);
    var k :| 0 <= k < |batch| && batch[k] == w;
  }

  /** Each batch has one day of its own, above the days of all earlier batches, however many were truncated away. */
  lemma DaysIncrease(runs: seq<seq<Window>>, i: nat, j: nat, w: Window, b: Window)
    requires i < |runs| && j < |runs| && w in BatchOf(runs, i) && b in BatchOf(runs, j)
    ensures i < j ==> w.day < b.day
    ensures i == j ==> w.day == b.day
  {
    BatchDay(runs, i, w);
    BatchDay(runs, j, b);
    if i < j {
      assert runs[..j][..i] == runs[..i];
      BatchIsLogged(runs[..j], i, w);
    }
  }

  // ---------- The store ----------

  class FilesystemMlHistoryStore {
    const maxWindows: nat
    var stored: seq<Window>
    ghost var log: seq<Window>

    ghost predicate Valid()
      reads this
    {
      maxWindows >= 1 && EndOf(stored, log, maxWindows)
    }

    constructor (max: nat)
      requires max >= 1
      ensures Valid() && maxWindows == max && stored == [] && log == []
    {
      maxWindows, stored, log := max, [], [];
    }

    /** Sorts and cuts what is stored; on the end of an ordered log that changes nothing. */
    method LoadWindows() returns (windows: seq<Window>)
      ensures windows == Loaded(stored, maxWindows)
      ensures Valid() ==> windows == stored == Last(log, maxWindows)
    {
      windows := SortBy(WindowLe, stored);
      windows := Last(windows, maxWindows);
      if Valid() {
        LoadIsIdentity(stored, log, maxWindows);
      }
    }

    /** Any batch may be appended; one that extends the log in order keeps the history its end. */
    method AppendWindows(windows: seq<Window>) returns (retained: seq<Window>)
      modifies this
      ensures log == old(log) + windows && retained == stored == Appended(old(stored), windows, maxWindows)
      ensures old(Valid()) && StrictlySorted(log) ==> Valid()
    {
      retained := LoadWindows();
      if Valid() {
        LoadIsIdentity(stored, log, maxWindows);
        LastAppend(log, windows, maxWindows);
      }
      retained := Last(retained + windows, maxWindows);
      stored := retained;
      log := log + windows;
    }

    /** The history part of one analysis: load, number, append. */
    method Analyse(summarize: Summarize, rows: seq<Row>) returns (current: seq<Window>)
      requires Valid()
      modifies this
      ensures Valid() && log == old(log) + current
      ensures current == AssignDay(Extract(summarize, rows), NextDay(old(log)))
      ensures forall w, b :: w in old(log) && b in current ==> w.day < b.day
    {
      var extracted := ExtractWindows(summarize, rows);
      ExtractIncreases(summarize, rows);
      AnalysisExtends(stored, log, extracted, maxWindows);
      LoadIsIdentity(stored, log, maxWindows);
      var history := LoadWindows();
      current := AssignDay(extracted, NextDay(history));
      var _ := AppendWindows(current);
    }
  }
}
