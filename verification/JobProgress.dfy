/** Jobs complete: what it takes, and a run in which a cancel comes too late. */
module JobProgress {
  import opened Prelude
  import opened Jobs
  import opened JobProtocol
  import opened JobTheorems
  import Catalog

  // ---------- When a job completes ----------

  /** Rendered artifacts that both the store and the catalog take. */
  predicate Fits(out: Rendered, cfg: Config)
  {
    && |out.json| <= MAX_REPORT_BYTES && |out.json| <= cfg.reports.maxBytes
    && |out.html| <= MAX_HTML_BYTES && |out.pdf| <= MAX_PDF_BYTES
  }

  /** A stage that returns, with all three artifacts within their limits. */
  predicate Good(outcome: Outcome, cfg: Config)
  {
    && outcome.Returns? && outcome.html.Some? && outcome.pdf.Some?
    && Fits(Rendered(outcome.json, outcome.html.value, outcome.pdf.value), cfg)
  }

  /** The catalog lists the case already or has room for it. */
  predicate HasRoom(published: map<Id, Bytes>, caseId: Id, cfg: Config)
  {
    ValidId(caseId) && |published.Keys + {caseId}| <= cfg.reports.maxCount
  }

  predicate IsRendered(phase: Phase)
  {
    match phase
    case Write(_) => true
    case Check(stage) => stage == Publication
    case Enter(stage) => stage == Publication
    case Work(stage) => stage == Publication
    case Finish => true
    case Begin => false
  }

  /** `run` is executing without a cancel request, `k` worker steps before its completion, or has completed. */
  predicate OnTrack(s: System, run: Id, cfg: Config, k: nat)
  {
    && run in s.store.jobs
    && if k == 0 then s.store.jobs[run].status == Completed
       else
         && s.worker.Executing? && s.worker.run == run && Remaining(s.worker.phase) == k
         && s.store.jobs[run].status == Running && !IsCancelRequested(s.store, run)
         && HasRoom(s.published, s.store.jobs[run].caseId, cfg)
         && (IsRendered(s.worker.phase) ==> Fits(s.worker.out, cfg))
  }

  lemma RoomPublishes(published: map<Id, Bytes>, caseId: Id, json: Bytes, cfg: Config)
    requires HasRoom(published, caseId, cfg) && |json| <= cfg.reports.maxBytes
    ensures Catalog.Publish(published, caseId, json, cfg.reports) == Some(published[caseId := json])
    ensures HasRoom(published[caseId := json], caseId, cfg)
  {
    UpdateKeys(published, caseId, json);
    assert published.Keys + {caseId} + {caseId} == published.Keys + {caseId};
  }

  lemma WorkOnTrack(s: System, outcome: Outcome, now: int, cfg: Config, run: Id, k: nat)
    requires OnTrack(s, run, cfg, k + 1) && s.worker.phase.Work? && Good(outcome, cfg)
    ensures OnTrack(ExecuteStep(s, outcome, now, cfg), run, cfg, k)
  {
    if s.worker.phase.stage == Publication {
      RoomPublishes(s.published, s.store.jobs[run].caseId, s.worker.out.json, cfg);
    }
  }

  lemma CheckOnTrack(s: System, outcome: Outcome, now: int, cfg: Config, run: Id, k: nat)
    requires OnTrack(s, run, cfg, k + 1) && (s.worker.phase.Begin? || s.worker.phase.Check?)
    ensures OnTrack(ExecuteStep(s, outcome, now, cfg), run, cfg, k)
  {
  }

  lemma EnterOnTrack(s: System, outcome: Outcome, now: int, cfg: Config, run: Id, k: nat)
    requires OnTrack(s, run, cfg, k + 1) && s.worker.phase.Enter?
    ensures OnTrack(ExecuteStep(s, outcome, now, cfg), run, cfg, k)
  {
  }

  lemma WriteOnTrack(s: System, outcome: Outcome, now: int, cfg: Config, run: Id, k: nat)
    requires OnTrack(s, run, cfg, k + 1) && s.worker.phase.Write?
    ensures OnTrack(ExecuteStep(s, outcome, now, cfg), run, cfg, k)
  {
  }

  lemma FinishOnTrack(s: System, outcome: Outcome, now: int, cfg: Config, run: Id, k: nat)
    requires OnTrack(s, run, cfg, k + 1) && s.worker.phase.Finish?
    ensures OnTrack(ExecuteStep(s, outcome, now, cfg), run, cfg, k)
  {
  }

  /** A good worker step brings the job exactly one step closer. */
  lemma ExecuteOnTrack(s: System, outcome: Outcome, now: int, cfg: Config, run: Id, k: nat)
    requires OnTrack(s, run, cfg, k + 1) && Good(outcome, cfg)
    ensures OnTrack(Apply(s, Execute(outcome, now), cfg), run, cfg, k)
  {
    match s.worker.phase
    case Begin => CheckOnTrack(s, outcome, now, cfg, run, k);
    case Check(_) => CheckOnTrack(s, outcome, now, cfg, run, k);
    case Enter(_) => EnterOnTrack(s, outcome, now, cfg, run, k);
    case Work(_) => WorkOnTrack(s, outcome, now, cfg, run, k);
    case Write(_) => WriteOnTrack(s, outcome, now, cfg, run, k);
    case Finish => FinishOnTrack(s, outcome, now, cfg, run, k);
  }

  /** Other actors leave it where it is, unless they cancel it. */
  lemma OthersKeepTrack(s: System, a: Action, cfg: Config, run: Id, k: nat)
    requires WorkerOk(s.store, s.published, s.worker) && OnTrack(s, run, cfg, k)
    requires !a.Execute? && !(a.Cancel? && a.run == run)
    ensures OnTrack(Apply(s, a, cfg), run, cfg, k)
  {
    if k == 0 {
      StepFreezesTerminal(s, a, cfg, run);
    } else if a.Stage? || a.Validate? || a.Deduplicate? || a.Commit? {
      IntakeEffect(s, a, cfg);
    }
  }

  /** No action cancels `run`, and every stage does its work. */
  predicate AllGood(actions: seq<Action>, run: Id, cfg: Config)
  {
    forall a :: a in actions ==> (a.Execute? ==> Good(a.outcome, cfg)) && !(a.Cancel? && a.run == run)
  }

  lemma StepOnTrack(s: System, a: Action, cfg: Config, run: Id, k: nat)
    requires WorkerOk(s.store, s.published, s.worker) && OnTrack(s, run, cfg, k)
    requires a.Execute? ==> Good(a.outcome, cfg)
    requires !(a.Cancel? && a.run == run)
    ensures OnTrack(Apply(s, a, cfg), run, cfg, if a.Execute? && k > 0 then k - 1 else k)
  {
    if a.Execute? && k > 0 {
      ExecuteOnTrack(s, a.outcome, a.now, cfg, run, k - 1);
    } else if a.Execute? {
      StepFreezesTerminal(s, a, cfg, run);
    } else {
      OthersKeepTrack(s, a, cfg, run, k);
    }
  }

  lemma {:induction false} RunOnTrack(s: System, actions: seq<Action>, cfg: Config, run: Id, k: nat)
    requires Inv(s, cfg) && OnTrack(s, run, cfg, k) && AllGood(actions, run, cfg)
    ensures OnTrack(Run(s, actions, cfg), run, cfg, if Executes(actions) <= k then k - Executes(actions) else 0)
    decreases |actions|
  {
    if actions != [] {
      var a := actions[0];
      assert a in actions;
      StepOnTrack(s, a, cfg, run, k);
      ApplyKeepsInv(s, a, cfg);
      RunOnTrack(Apply(s, a, cfg), actions[1..], cfg, run, if a.Execute? && k > 0 then k - 1 else k);
    }
  }

  /**
   A claimed job that nobody has cancelled, with room in the catalog, completes in every continuation with enough good
   worker steps in which nobody cancels it, whatever else happens in between.
   */
  lemma GoodJobsComplete(s: System, actions: seq<Action>, cfg: Config, run: Id)
    requires Inv(s, cfg) && s.worker.Executing? && s.worker.run == run && !IsCancelRequested(s.store, run)
    requires run in s.store.jobs ==> HasRoom(s.published, s.store.jobs[run].caseId, cfg)
    requires IsRendered(s.worker.phase) ==> Fits(s.worker.out, cfg)
    requires AllGood(actions, run, cfg) && Executes(actions) >= Remaining(s.worker.phase)
    ensures var t := Run(s, actions, cfg); run in t.store.jobs && t.store.jobs[run].status == Completed
  {
    StepsLeft(s.worker.phase);
    RunOnTrack(s, actions, cfg, run, Remaining(s.worker.phase));
  }

  // ---------- A cancel that comes too late ----------

  /** An upload and its job, as small as they come. */
  const REQUEST := Request("x.pcapng", "pcapng", "p", None)

  /** An upload is received, checked, committed as job "r" of case "c" and claimed. */
  const PRELUDE: seq<Action> :=
    [Action.Stage("u", "s", PCAPNG_MAGIC, REQUEST), Validate, Deduplicate, Commit("r", Some("c"), true, 0),
     BeginClaim(["r"]), Claim(0)]

  const STEP := Execute(Returns([], Some([]), Some([])), 0)

  function Steps(n: nat): seq<Action> { if n == 0 then [] else [STEP] + Steps(n - 1) }

  lemma {:induction false} RunAppend(s: System, a: seq<Action>, b: seq<Action>, cfg: Config)
    ensures Run(s, a + b, cfg) == Run(Run(s, a, cfg), b, cfg)
    decreases |a|
  {
    if a == [] {
      assert a + b == b;
    } else {
      assert (a + b)[0] == a[0] && (a + b)[1..] == a[1..] + b;
      RunAppend(Apply(s, a[0], cfg), a[1..], b, cfg);
    }
  }

  lemma {:induction false} StepsAreGood(n: nat, cfg: Config)
    ensures AllGood(Steps(n), "r", cfg) && Executes(Steps(n)) == n
    ensures forall a :: a in Steps(n) ==> a.Execute?
  {
    if n > 0 {
      StepsAreGood(n - 1, cfg);
      assert Steps(n)[1..] == Steps(n - 1);
    }
  }

  const UPLOAD := Upload(0, "s", PCAPNG_MAGIC)

  const JOB := NewJob(Key("s", "p", None), REQUEST, "c", 0)

  /** What the store holds once the job is committed. */
  const COMMITTED := Store(map["r" := JOB], {}, map["r" := UPLOAD], map[], map[])

  lemma Uploaded(cfg: Config)
    requires cfg.maxJobs >= 1
    ensures Run(INITIAL, PRELUDE[..4], cfg) == System(COMMITTED, map[], Free, Idle, 1, {})
  {
    var checked := System(EMPTY_STORE.(quarantine := map["u" := UPLOAD]), map[], Checked("u", REQUEST), Idle, 1, {});
    UploadChecked(cfg);
    UploadCommitted(checked, cfg);
    assert PRELUDE[..4] == PRELUDE[..2] + PRELUDE[2..4];
    RunAppend(INITIAL, PRELUDE[..2], PRELUDE[2..4], cfg);
  }

  lemma RunTwo(s: System, a: Action, b: Action, cfg: Config)
    ensures Run(s, [a, b], cfg) == Apply(Apply(s, a, cfg), b, cfg)
  {
    assert [a, b][1..] == [b] && [b][1..] == [];
    assert Run(Apply(s, a, cfg), [b], cfg) == Run(Apply(Apply(s, a, cfg), b, cfg), [], cfg);
  }

  lemma UploadChecked(cfg: Config)
    ensures Run(INITIAL, PRELUDE[..2], cfg) ==
            System(EMPTY_STORE.(quarantine := map["u" := UPLOAD]), map[], Checked("u", REQUEST), Idle, 1, {})
  {
    RunTwo(INITIAL, PRELUDE[0], PRELUDE[1], cfg);
    assert PRELUDE[..2] == [PRELUDE[0], PRELUDE[1]];
  }

  lemma UploadCommitted(s: System, cfg: Config)
    requires cfg.maxJobs >= 1
    requires s == System(EMPTY_STORE.(quarantine := map["u" := UPLOAD]), map[], Checked("u", REQUEST), Idle, 1, {})
    ensures Run(s, PRELUDE[2..4], cfg) == System(COMMITTED, map[], Free, Idle, 1, {})
  {
    RunTwo(s, PRELUDE[2], PRELUDE[3], cfg);
    assert PRELUDE[2..4] == [PRELUDE[2], PRELUDE[3]];
    assert ValidId("u") && ValidId("r");
    assert s.store.quarantine - {"u"} == map[];
  }

  lemma JobClaimed(s: System, cfg: Config)
    requires s == System(COMMITTED, map[], Free, Idle, 1, {}) && cfg.reports.maxCount >= 1
    ensures OnTrack(Run(s, PRELUDE[4..], cfg), "r", cfg, 20)
  {
    RunTwo(s, PRELUDE[4], PRELUDE[5], cfg);
    assert PRELUDE[4..] == [PRELUDE[4], PRELUDE[5]];
    assert IsClaimQueue(s.store, ["r"]);
    assert ValidId("c") && s.published.Keys + {"c"} == {"c"};
  }

  lemma ClaimReached(cfg: Config)
    requires cfg.maxJobs >= 1 && cfg.reports.maxCount >= 1
    ensures OnTrack(Run(INITIAL, PRELUDE, cfg), "r", cfg, 20)
  {
    Uploaded(cfg);
    JobClaimed(Run(INITIAL, PRELUDE[..4], cfg), cfg);
    assert PRELUDE == PRELUDE[..4] + PRELUDE[4..];
    RunAppend(INITIAL, PRELUDE[..4], PRELUDE[4..], cfg);
  }

  lemma ThreeLeft(phase: Phase)
    requires Remaining(phase) == 3
    ensures phase == Enter(Publication)
  {
  }

  lemma TrackIsLate(s: System, run: Id, cfg: Config)
    requires OnTrack(s, run, cfg, 3)
    ensures PastCancelling(s, run, cfg) && s.store.jobs[run].status == Running
  {
    ThreeLeft(s.worker.phase);
    RoomPublishes(s.published, s.store.jobs[run].caseId, s.worker.out.json, cfg);
  }

  lemma AfterPrelude(n: nat, cfg: Config)
    requires cfg.maxJobs >= 1 && cfg.reports.maxCount >= 1 && n <= 20
    ensures OnTrack(Run(INITIAL, PRELUDE + Steps(n), cfg), "r", cfg, 20 - n)
  {
    ClaimReached(cfg);
    ReachableInv(PRELUDE, cfg);
    StepsAreGood(n, cfg);
    RunOnTrack(Run(INITIAL, PRELUDE, cfg), Steps(n), cfg, "r", 20);
    RunAppend(INITIAL, PRELUDE, Steps(n), cfg);
  }

  /**
   Under every configuration with room for a job and a report, seventeen good steps after the claim lead past the last
   cancel check.
   */
  lemma LateIsReachable(s: System, n: nat, cfg: Config)
    requires cfg.maxJobs >= 1 && cfg.reports.maxCount >= 1
    requires n == 17 && s == Run(INITIAL, PRELUDE + Steps(n), cfg)
    ensures Reachable(s, cfg) && PastCancelling(s, "r", cfg) && s.store.jobs["r"].status == Running
  {
    AfterPrelude(n, cfg);
    TrackIsLate(s, "r", cfg);
  }

  lemma LateCancelIsAccepted(s: System, run: Id, now: int, cfg: Config)
    requires PastCancelling(s, run, cfg) && s.store.jobs[run].status == Running
    ensures RequestCancel(s.store, run, now).Ok?
  {
  }

  /**
   The failing run: in the state it reaches a cancel is accepted, and three worker steps later the job is completed.
   */
  lemma LateCancelExample(s: System, n: nat, m: nat, cfg: Config)
    requires cfg.maxJobs >= 1 && cfg.reports.maxCount >= 1
    requires n == 17 && m == 3 && s == Run(INITIAL, PRELUDE + Steps(n), cfg)
    ensures RequestCancel(s.store, "r", 0).Ok?
    ensures var t := Run(CancelRun(s, "r", 0), Steps(m), cfg);
            "r" in t.store.jobs && t.store.jobs["r"].status == Completed && t.store.jobs["r"].cancelRequested
  {
    LateIsReachable(s, n, cfg);
    ReachableMeansInv(s, cfg);
    LateCancelIsAccepted(s, "r", 0, cfg);
    StepsAreGood(m, cfg);
    CancelTooLateLoses(s, "r", 0, Steps(m), cfg);
  }

  /** Without the cancel the run completes in three more steps too: jobs do complete, and publish. */
  lemma CompletionExample(n: nat, cfg: Config)
    requires cfg.maxJobs >= 1 && cfg.reports.maxCount >= 1 && n == 20
    ensures var t := Run(INITIAL, PRELUDE + Steps(n), cfg);
            "r" in t.store.jobs && t.store.jobs["r"].status == Completed
  {
    AfterPrelude(n, cfg);
  }
}
