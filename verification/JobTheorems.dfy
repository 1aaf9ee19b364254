/** What holds over every run of the capture-job protocol. */
module JobTheorems {
  import opened Prelude
  import opened Jobs
  import opened JobProtocol
  import Catalog

  // ---------- Every reachable state ----------

  lemma InitiallyInv(cfg: Config)
    ensures Inv(INITIAL, cfg)
  {
  }

  lemma {:induction false} RunKeepsInv(s: System, actions: seq<Action>, cfg: Config)
    requires Inv(s, cfg)
    ensures Inv(Run(s, actions, cfg), cfg)
    decreases |actions|
  {
    if actions != [] {
      ApplyKeepsInv(s, actions[0], cfg);
      RunKeepsInv(Apply(s, actions[0], cfg), actions[1..], cfg);
    }
  }

  lemma ReachableInv(actions: seq<Action>, cfg: Config)
    ensures Inv(Run(INITIAL, actions, cfg), cfg)
  {
    InitiallyInv(cfg);
    RunKeepsInv(INITIAL, actions, cfg);
  }

  ghost predicate Reachable(s: System, cfg: Config) { exists actions :: s == Run(INITIAL, actions, cfg) }

  lemma ReachableMeansInv(s: System, cfg: Config)
    requires Reachable(s, cfg)
    ensures Inv(s, cfg)
  {
    var actions :| s == Run(INITIAL, actions, cfg);
    ReachableInv(actions, cfg);
  }

  /** Of two different jobs with the same capture, profile and hostname one is failed or cancelled. */
  lemma OneActiveJobPerKey(actions: seq<Action>, cfg: Config, a: Id, b: Id)
    requires var jobs := Run(INITIAL, actions, cfg).store.jobs;
             && a in jobs && b in jobs && a != b
             && jobs[a].sha == jobs[b].sha && jobs[a].profile == jobs[b].profile
             && jobs[a].hostname == jobs[b].hostname
    ensures var jobs := Run(INITIAL, actions, cfg).store.jobs;
            jobs[a].status in {Failed, Cancelled} || jobs[b].status in {Failed, Cancelled}
  {
    ReachableInv(actions, cfg);
    var jobs := Run(INITIAL, actions, cfg).store.jobs;
    ActiveOrEnded(jobs[a].status);
    ActiveOrEnded(jobs[b].status);
  }

  lemma JobQuotaHolds(actions: seq<Action>, cfg: Config)
    ensures |Run(INITIAL, actions, cfg).store.jobs| <= cfg.maxJobs
  {
    ReachableInv(actions, cfg);
  }

  /** "Queued with cancel requested" is unreachable, so the sweep of `claim_next` finds nothing. */
  lemma NoCancelledJobIsQueued(actions: seq<Action>, cfg: Config, run: Id)
    requires var st := Run(INITIAL, actions, cfg).store;
             run in st.jobs && st.jobs[run].status == Queued
    ensures !IsCancelRequested(Run(INITIAL, actions, cfg).store, run)
  {
    ReachableInv(actions, cfg);
  }

  /** No update the worker makes ever raises: the worker is never dead. */
  lemma WorkerNeverDies(actions: seq<Action>, cfg: Config)
    ensures !Run(INITIAL, actions, cfg).worker.Dead?
  {
    ReachableInv(actions, cfg);
  }

  predicate CapturedBy(st: Store, run: Id, n: nat)
  {
    run in st.captures && st.captures[run].serial == n
  }

  /** Between intakes, every upload ever staged is either aborted or the capture of exactly one job. */
  lemma EveryUploadIsSettled(actions: seq<Action>, cfg: Config, n: nat)
    requires Run(INITIAL, actions, cfg).intake.Free? && n < Run(INITIAL, actions, cfg).staged
    ensures var s := Run(INITIAL, actions, cfg);
            && (n in s.aborted <==> !exists run :: CapturedBy(s.store, run, n))
            && (forall a, b :: CapturedBy(s.store, a, n) && CapturedBy(s.store, b, n) ==> a == b)
            && (forall run :: CapturedBy(s.store, run, n) ==>
                                run in s.store.jobs && s.store.jobs[run].sha == s.store.captures[run].sha)
  {
    ReachableInv(actions, cfg);
    var s := Run(INITIAL, actions, cfg);
    SettledUploads(s.store, s.staged, s.aborted, n);
  }

  lemma SettledUploads(st: Store, staged: nat, aborted: set<nat>, n: nat)
    requires UploadsConserved(st.quarantine, st.captures, staged, aborted) && CapturesMatch(st)
    requires st.quarantine.Keys == {} && n < staged
    ensures n in aborted <==> !exists run :: CapturedBy(st, run, n)
    ensures forall a, b :: CapturedBy(st, a, n) && CapturedBy(st, b, n) ==> a == b
    ensures forall run :: CapturedBy(st, run, n) ==> run in st.jobs && st.jobs[run].sha == st.captures[run].sha
  {
    assert forall u :: u in st.quarantine ==> u in st.quarantine.Keys;
    assert !Quarantined(st.quarantine, n);
    assert Captured(st.captures, n) <==> exists run :: CapturedBy(st, run, n) by {
      if Captured(st.captures, n) {
        var run :| run in st.captures && st.captures[run].serial == n;
        assert CapturedBy(st, run, n);
      }
      if run :| CapturedBy(st, run, n) {
        assert run in st.captures && st.captures[run].serial == n;
      }
    }
  }

  /** Whatever the catalog returns is the `report.json` of a job of that case that is completed or completing. */
  lemma CatalogIsTraced(actions: seq<Action>, cfg: Config, caseId: Id)
    requires caseId in Run(INITIAL, actions, cfg).published
    ensures var s := Run(INITIAL, actions, cfg);
            exists run :: Source(s.store, s.published, s.worker, caseId, run)
  {
    ReachableInv(actions, cfg);
  }

  // ---------- What one step does to the records ----------

  /** A fresh queued job joins; nothing else changes but the quarantine and the captures. */
  ghost predicate Admitted(st: Store, after: Store)
  {
    && (exists run, job: Job :: run !in st.jobs && job.status == Queued && after.jobs == st.jobs[run := job])
    && after.artifacts == st.artifacts
  }

  ghost predicate SameRecords(st: Store, after: Store)
  {
    after.jobs == st.jobs && after.artifacts == st.artifacts
  }

  lemma IntakeEffect(s: System, a: Action, cfg: Config)
    requires a.Stage? || a.Validate? || a.Deduplicate? || a.Commit?
    ensures SameRecords(s.store, Apply(s, a, cfg).store) || Admitted(s.store, Apply(s, a, cfg).store)
    ensures Apply(s, a, cfg).published == s.published && Apply(s, a, cfg).worker == s.worker
  {
    if a.Commit? && s.intake.Cleared? {
      CommitShape(s, a.run, a.caseId, a.fits, a.now, cfg);
    }
  }

  lemma OtherEffect(s: System, a: Action, cfg: Config)
    requires WorkerOk(s.store, s.published, s.worker)
    requires !(a.Stage? || a.Validate? || a.Deduplicate? || a.Commit?)
    ensures Moved(s.store, Apply(s, a, cfg).store)
  {
    match a
    case Cancel(run, now) => CancelMoves(s, run, now);
    case Claim(now) => ClaimMoves(s, now);
    case Execute(outcome, now) => ExecuteMoves(s, outcome, now, cfg);
    case _ =>
  }

  // ---------- Terminal records ----------

  /** Everything stored for `run` is the same in both stores. */
  ghost predicate Frozen(st: Store, after: Store, run: Id)
  {
    && run in st.jobs && run in after.jobs && after.jobs[run] == st.jobs[run]
    && forall name :: ReadArtifact(after, run, name) == ReadArtifact(st, run, name)
  }

  lemma MoveFreezesTerminal(st: Store, after: Store, run: Id)
    requires Moved(st, after) && run in st.jobs && Terminal(st.jobs[run].status)
    ensures Frozen(st, after, run)
  {
  }

  lemma StepFreezesTerminal(s: System, a: Action, cfg: Config, run: Id)
    requires WorkerOk(s.store, s.published, s.worker)
    requires run in s.store.jobs && Terminal(s.store.jobs[run].status)
    ensures Frozen(s.store, Apply(s, a, cfg).store, run)
  {
    if a.Stage? || a.Validate? || a.Deduplicate? || a.Commit? {
      IntakeEffect(s, a, cfg);
    } else {
      OtherEffect(s, a, cfg);
      MoveFreezesTerminal(s.store, Apply(s, a, cfg).store, run);
    }
  }

  /** Once completed, failed or cancelled, a record and its artifacts never change again. */
  lemma {:induction false} TerminalIsForever(s: System, actions: seq<Action>, cfg: Config, run: Id)
    requires Inv(s, cfg) && run in s.store.jobs && s.store.jobs[run].status in {Completed, Failed, Cancelled}
    ensures Frozen(s.store, Run(s, actions, cfg).store, run)
    decreases |actions|
  {
    if actions != [] {
      var t := Apply(s, actions[0], cfg);
      StepFreezesTerminal(s, actions[0], cfg, run);
      ApplyKeepsInv(s, actions[0], cfg);
      TerminalIsForever(t, actions[1..], cfg, run);
    }
  }

  lemma CancelOfQueued(s: System, run: Id, now: int)
    requires run in s.store.jobs && s.store.jobs[run].status in {Queued, Cancelled}
    ensures var c := CancelRun(s, run, now);
            run in c.store.jobs && c.store.jobs[run].status == Cancelled
  {
  }

  /** A cancel that lands between the snapshot of `claim_next` and its update keeps the job from ever running. */
  lemma CancelBeatsClaim(s: System, run: Id, now: int, actions: seq<Action>, cfg: Config)
    requires Inv(s, cfg) && s.worker.Claiming? && run in s.worker.queue
    ensures var t := Run(CancelRun(s, run, now), actions, cfg);
            run in t.store.jobs && t.store.jobs[run].status == Cancelled
  {
    CancelOfQueued(s, run, now);
    CancelKeepsInv(s, run, now, cfg);
    TerminalIsForever(CancelRun(s, run, now), actions, cfg, run);
  }

  // ---------- Completion and publication ----------

  /** No status other than completed turns into completed. */
  ghost predicate NoneCompletes(st: Store, after: Store)
  {
    forall run :: run in after.jobs && after.jobs[run].status == Completed ==>
                    run in st.jobs && st.jobs[run].status == Completed
  }

  lemma FailCompletesNone(s: System, run: Id, message: string, now: int)
    ensures NoneCompletes(s.store, FailJob(s, run, message, now).store)
  {
  }

  lemma WorkCompletesNone(s: System, run: Id, stage: Stage, out: Rendered, outcome: Outcome, now: int, cfg: Config)
    ensures NoneCompletes(s.store, WorkStep(s, run, stage, out, outcome, now, cfg).store)
  {
    if stage == Publication {
      FailCompletesNone(s, run, "report cannot be published", now);
      FailCompletesNone(s, run, "analysis run not found", now);
    } else if outcome.Raises? {
      FailCompletesNone(s, run, outcome.message, now);
    } else if stage == ReportRendering {
      FailCompletesNone(s, run, "HTML and PDF artifacts are required", now);
      FailCompletesNone(s, run, "HTML artifact exceeds limit", now);
      FailCompletesNone(s, run, "PDF artifact exceeds limit", now);
    }
  }

  lemma AttemptCompletesNone(s: System, run: Id, u: Update, now: int, next: WorkerState)
    requires u.status != Some(Completed)
    ensures NoneCompletes(s.store, Attempt(s, run, u, now, next).store)
  {
    FailCompletesNone(s, run, "update failed", now);
  }

  lemma ExecuteCompletesNone(s: System, outcome: Outcome, now: int, cfg: Config)
    requires !(s.worker.Executing? && s.worker.phase == Finish)
    ensures NoneCompletes(s.store, ExecuteStep(s, outcome, now, cfg).store)
  {
    if s.worker.Executing? {
      var Executing(run, phase, out) := s.worker;
      match phase
      case Begin =>
      case Check(_) => AttemptCompletesNone(s, run, NO_UPDATE.(status := Some(Cancelled)), now, Idle);
      case Enter(stage) =>
        AttemptCompletesNone(s, run, NO_UPDATE.(stage := Some(stage)), now, Executing(run, Work(stage), out));
      case Work(stage) => WorkCompletesNone(s, run, stage, out, outcome, now, cfg);
      case Write(_) => FailCompletesNone(s, run, "artifact cannot be stored", now);
    }
  }

  lemma OnlyFinishCompletes(s: System, a: Action, cfg: Config)
    requires WorkerOk(s.store, s.published, s.worker)
    requires !(a.Execute? && s.worker.Executing? && s.worker.phase == Finish)
    ensures NoneCompletes(s.store, Apply(s, a, cfg).store)
  {
    if a.Stage? || a.Validate? || a.Deduplicate? || a.Commit? {
      IntakeEffect(s, a, cfg);
    } else if a.Execute? {
      ExecuteCompletesNone(s, a.outcome, a.now, cfg);
    }
  }

  /** A job that becomes completed has its artifacts stored, and its case reads as its `report.json`. */
  lemma CompletionPublishes(s: System, a: Action, cfg: Config, run: Id)
    requires Inv(s, cfg)
    requires run in s.store.jobs ==> s.store.jobs[run].status != Completed
    requires var t := Apply(s, a, cfg); run in t.store.jobs && t.store.jobs[run].status == Completed
    ensures var t := Apply(s, a, cfg);
            && s.worker.Executing? && s.worker.run == run
            && AllStored(t.store, run, s.worker.out)
            && t.store.jobs[run].caseId in t.published
            && t.published[t.store.jobs[run].caseId] == s.worker.out.json
  {
    if a.Execute? && s.worker.Executing? && s.worker.phase == Finish {
      FinishEffect(s, a.outcome, a.now, cfg, run);
    } else {
      OnlyFinishCompletes(s, a, cfg);
    }
  }

  lemma FinishEffect(s: System, outcome: Outcome, now: int, cfg: Config, run: Id)
    requires WorkerOk(s.store, s.published, s.worker) && s.worker.Executing? && s.worker.phase == Finish
    requires run in s.store.jobs ==> s.store.jobs[run].status != Completed
    requires var t := ExecuteStep(s, outcome, now, cfg); run in t.store.jobs && t.store.jobs[run].status == Completed
    ensures var t := ExecuteStep(s, outcome, now, cfg);
            && s.worker.run == run
            && AllStored(t.store, run, s.worker.out)
            && t.store.jobs[run].caseId in t.published
            && t.published[t.store.jobs[run].caseId] == s.worker.out.json
  {
  }

  // ---------- Only jobs that complete change the catalog ----------

  /** `run` has completed, or has published and only has to record it. */
  predicate Bound(s: System, run: Id)
  {
    run in s.store.jobs && (s.store.jobs[run].status == Completed || Finishing(s.worker, run))
  }

  lemma StepKeepsBound(s: System, a: Action, cfg: Config, run: Id)
    requires WorkerOk(s.store, s.published, s.worker) && Bound(s, run)
    ensures Bound(Apply(s, a, cfg), run)
  {
    if s.store.jobs[run].status == Completed {
      StepFreezesTerminal(s, a, cfg, run);
    } else if a.Stage? || a.Validate? || a.Deduplicate? || a.Commit? {
      IntakeEffect(s, a, cfg);
    } else if a.Execute? {
      FinishCompletes(s, a.outcome, a.now, cfg);
    }
  }

  lemma {:induction false} BoundForever(s: System, actions: seq<Action>, cfg: Config, run: Id)
    requires Inv(s, cfg) && Bound(s, run)
    ensures Bound(Run(s, actions, cfg), run)
    decreases |actions|
  {
    if actions != [] {
      StepKeepsBound(s, actions[0], cfg, run);
      ApplyKeepsInv(s, actions[0], cfg);
      BoundForever(Apply(s, actions[0], cfg), actions[1..], cfg, run);
    }
  }

  lemma CatalogChange(s: System, a: Action, cfg: Config)
    requires WorkerOk(s.store, s.published, s.worker) && Apply(s, a, cfg).published != s.published
    ensures s.worker.Executing? && Bound(Apply(s, a, cfg), s.worker.run)
    ensures var run := s.worker.run;
            && HasArtifact(s.store, run, ReportJson, s.worker.out.json)
            && Apply(s, a, cfg).published == s.published[s.store.jobs[run].caseId := s.worker.out.json]
  {
    if a.Stage? || a.Validate? || a.Deduplicate? || a.Commit? {
      IntakeEffect(s, a, cfg);
    } else if a.Execute? && s.worker.Executing? {
      if s.worker.phase == Finish {
        FinishCompletes(s, a.outcome, a.now, cfg);
      } else {
        OnlyPublicationPublishes(s, a.outcome, a.now, cfg);
      }
    }
  }

  /**
   A step that changes what the catalog returns replaces one case by the stored `report.json` of the
   executing job; that job is never failed or cancelled in any continuation.
   */
  lemma OnlyCompletingJobsPublish(s: System, a: Action, actions: seq<Action>, cfg: Config)
    requires Inv(s, cfg) && Apply(s, a, cfg).published != s.published
    ensures s.worker.Executing?
    ensures var run := s.worker.run;
            var t := Run(Apply(s, a, cfg), actions, cfg);
            && HasArtifact(s.store, run, ReportJson, s.worker.out.json)
            && Apply(s, a, cfg).published == s.published[s.store.jobs[run].caseId := s.worker.out.json]
            && run in t.store.jobs && t.store.jobs[run].status in {Running, Completed}
  {
    CatalogChange(s, a, cfg);
    var t := Apply(s, a, cfg);
    ApplyKeepsInv(s, a, cfg);
    BoundForever(t, actions, cfg, s.worker.run);
    RunKeepsInv(t, actions, cfg);
    BoundStatus(Run(t, actions, cfg), s.worker.run);
  }

  lemma BoundStatus(s: System, run: Id)
    requires WorkerOk(s.store, s.published, s.worker) && Bound(s, run)
    ensures s.store.jobs[run].status in {Running, Completed}
  {
  }

  // ---------- What an accepted cancel achieves ----------

  /** The last cancel check lies behind, and nothing in the catalog stands in the way. */
  predicate PastCancelling(s: System, run: Id, cfg: Config)
  {
    && s.worker.Executing? && s.worker.run == run && run in s.store.jobs
    && (|| s.worker.phase == Finish
        || (s.worker.phase in {Enter(Publication), Work(Publication)}
            && Catalog.Publish(s.published, s.store.jobs[run].caseId, s.worker.out.json, cfg.reports).Some?))
  }

  /** `run` can no longer complete. */
  predicate Doomed(s: System, run: Id, cfg: Config)
  {
    && run in s.store.jobs
    && s.store.jobs[run].status != Completed
    && (|| Terminal(s.store.jobs[run].status)
        || (&& s.worker.Executing? && s.worker.run == run && IsCancelRequested(s.store, run)
            && !PastCancelling(s, run, cfg)))
  }

  lemma FailDooms(s: System, run: Id, message: string, now: int, cfg: Config)
    requires run in s.store.jobs && s.store.jobs[run].status == Running
    ensures Doomed(FailJob(s, run, message, now), run, cfg)
  {
  }

  lemma WorkDooms(s: System, outcome: Outcome, now: int, cfg: Config)
    requires WorkerOk(s.store, s.published, s.worker) && s.worker.Executing? && s.worker.phase.Work?
    requires Doomed(s, s.worker.run, cfg)
    ensures Doomed(ExecuteStep(s, outcome, now, cfg), s.worker.run, cfg)
  {
    var Executing(run, phase, out) := s.worker;
    if phase.stage == Publication {
      FailDooms(s, run, "report cannot be published", now, cfg);
    } else if outcome.Raises? {
      FailDooms(s, run, outcome.message, now, cfg);
    } else if phase.stage == ReportRendering {
      FailDooms(s, run, "HTML and PDF artifacts are required", now, cfg);
      FailDooms(s, run, "HTML artifact exceeds limit", now, cfg);
      FailDooms(s, run, "PDF artifact exceeds limit", now, cfg);
    }
  }

  lemma ExecuteDooms(s: System, outcome: Outcome, now: int, cfg: Config)
    requires WorkerOk(s.store, s.published, s.worker) && s.worker.Executing?
    requires Doomed(s, s.worker.run, cfg)
    ensures Doomed(ExecuteStep(s, outcome, now, cfg), s.worker.run, cfg)
  {
    var Executing(run, phase, out) := s.worker;
    match phase
    case Begin =>
    case Check(_) =>
    case Enter(_) =>
    case Work(_) => WorkDooms(s, outcome, now, cfg);
    case Write(_) => FailDooms(s, run, "artifact cannot be stored", now, cfg);
    case Finish =>
  }

  lemma StepKeepsDoomed(s: System, a: Action, cfg: Config, run: Id)
    requires WorkerOk(s.store, s.published, s.worker) && Doomed(s, run, cfg)
    ensures Doomed(Apply(s, a, cfg), run, cfg)
  {
    if Terminal(s.store.jobs[run].status) {
      StepFreezesTerminal(s, a, cfg, run);
    } else if a.Stage? || a.Validate? || a.Deduplicate? || a.Commit? {
      IntakeEffect(s, a, cfg);
    } else if a.Execute? {
      ExecuteDooms(s, a.outcome, a.now, cfg);
    }
  }

  lemma {:induction false} DoomedForever(s: System, actions: seq<Action>, cfg: Config, run: Id)
    requires Inv(s, cfg) && Doomed(s, run, cfg)
    ensures Doomed(Run(s, actions, cfg), run, cfg)
    decreases |actions|
  {
    if actions != [] {
      StepKeepsDoomed(s, actions[0], cfg, run);
      ApplyKeepsInv(s, actions[0], cfg);
      DoomedForever(Apply(s, actions[0], cfg), actions[1..], cfg, run);
    }
  }

  lemma CancelDooms(s: System, run: Id, now: int, cfg: Config)
    requires WorkerOk(s.store, s.published, s.worker)
    requires run in s.store.jobs && s.store.jobs[run].status in {Queued, Running} && !PastCancelling(s, run, cfg)
    ensures Doomed(CancelRun(s, run, now), run, cfg)
  {
  }

  /** A cancel accepted before the last check never ends in completed, whatever happens next. */
  lemma CancelInTimeWins(s: System, run: Id, now: int, actions: seq<Action>, cfg: Config)
    requires Inv(s, cfg) && run in s.store.jobs && s.store.jobs[run].status in {Queued, Running}
    requires !PastCancelling(s, run, cfg)
    ensures var t := Run(CancelRun(s, run, now), actions, cfg);
            run in t.store.jobs && t.store.jobs[run].status != Completed
  {
    CancelDooms(s, run, now, cfg);
    CancelKeepsInv(s, run, now, cfg);
    DoomedForever(CancelRun(s, run, now), actions, cfg, run);
  }

  /** `run` carries a cancel request and completes within `k` more worker steps. */
  predicate CompletesWithin(s: System, run: Id, cfg: Config, k: nat)
  {
    && run in s.store.jobs && s.store.jobs[run].cancelRequested
    && (|| s.store.jobs[run].status == Completed
        || (k >= 1 && PastCancelling(s, run, cfg) && s.worker.phase == Finish)
        || (k >= 2 && PastCancelling(s, run, cfg) && s.worker.phase == Work(Publication))
        || (k >= 3 && PastCancelling(s, run, cfg)))
  }

  lemma LateStep(s: System, outcome: Outcome, now: int, cfg: Config, run: Id, k: nat)
    requires WorkerOk(s.store, s.published, s.worker) && CompletesWithin(s, run, cfg, k + 1)
    ensures CompletesWithin(Apply(s, Execute(outcome, now), cfg), run, cfg, k)
  {
    if s.store.jobs[run].status == Completed {
      StepFreezesTerminal(s, Execute(outcome, now), cfg, run);
    } else if s.worker.phase == Finish {
      FinishCompletes(s, outcome, now, cfg);
    }
  }

  /** What other actors do neither hastens nor hinders that. */
  lemma OthersKeepLate(s: System, a: Action, cfg: Config, run: Id, k: nat)
    requires WorkerOk(s.store, s.published, s.worker) && CompletesWithin(s, run, cfg, k) && !a.Execute?
    ensures CompletesWithin(Apply(s, a, cfg), run, cfg, k)
  {
    if s.store.jobs[run].status == Completed {
      StepFreezesTerminal(s, a, cfg, run);
    } else if a.Stage? || a.Validate? || a.Deduplicate? || a.Commit? {
      IntakeEffect(s, a, cfg);
    }
  }

  /** The number of worker steps in a run. */
  function Executes(actions: seq<Action>): nat
  {
    if actions == [] then 0 else (if actions[0].Execute? then 1 else 0) + Executes(actions[1..])
  }

  lemma {:induction false} LateRun(s: System, actions: seq<Action>, cfg: Config, run: Id, k: nat)
    requires Inv(s, cfg) && CompletesWithin(s, run, cfg, k) && Executes(actions) >= k
    ensures CompletesWithin(Run(s, actions, cfg), run, cfg, 0)
    decreases |actions|
  {
    if actions != [] {
      var a := actions[0];
      var t := Apply(s, a, cfg);
      ApplyKeepsInv(s, a, cfg);
      if a.Execute? && k > 0 {
        LateStep(s, a.outcome, a.now, cfg, run, k - 1);
        LateRun(t, actions[1..], cfg, run, k - 1);
      } else if a.Execute? {
        StepFreezesTerminal(s, a, cfg, run);
        LateRun(t, actions[1..], cfg, run, 0);
      } else {
        OthersKeepLate(s, a, cfg, run, k);
        LateRun(t, actions[1..], cfg, run, k);
      }
    }
  }

  lemma CancelIsRecorded(s: System, run: Id, now: int, cfg: Config)
    requires WorkerOk(s.store, s.published, s.worker) && PastCancelling(s, run, cfg)
    ensures CompletesWithin(CancelRun(s, run, now), run, cfg, 3)
  {
  }

  /**
   The exact other half: a cancel accepted after the last check is recorded, and every continuation with three more
   worker steps, whatever is interleaved with them, completes the job all the same.
   */
  lemma CancelTooLateLoses(s: System, run: Id, now: int, actions: seq<Action>, cfg: Config)
    requires Inv(s, cfg) && PastCancelling(s, run, cfg) && Executes(actions) >= 3
    ensures var t := Run(CancelRun(s, run, now), actions, cfg);
            run in t.store.jobs && t.store.jobs[run].status == Completed && t.store.jobs[run].cancelRequested
  {
    CancelIsRecorded(s, run, now, cfg);
    CancelKeepsInv(s, run, now, cfg);
    LateRun(CancelRun(s, run, now), actions, cfg, run, 3);
  }

  // ---------- Progress ----------

  function StageSteps(stage: Stage): nat
  {
    match stage
    case Publication => 2
    case ReportRendering => 8
    case MlAdvisory => 11
    case PolicyScoring => 14
    case DeterministicAnalysis => 17
    case Intake => 20
  }

  /** An upper bound on the worker steps that a job needs from this phase on. */
  function Remaining(phase: Phase): nat
  {
    match phase
    case Begin => 20
    case Check(stage) => StageSteps(stage) + 2
    case Enter(stage) => StageSteps(stage) + 1
    case Work(stage) => StageSteps(stage)
    case Write(ReportJson) => 7
    case Write(ReportHtml) => 6
    case Write(ReportPdf) => 5
    case Finish => 1
  }

  predicate EndsWithin(s: System, run: Id, k: nat)
  {
    && run in s.store.jobs
    && (Terminal(s.store.jobs[run].status)
       || (s.worker.Executing? && s.worker.run == run && Remaining(s.worker.phase) <= k))
  }

  lemma FailEnds(s: System, run: Id, message: string, now: int, k: nat)
    requires run in s.store.jobs && s.store.jobs[run].status == Running
    ensures EndsWithin(FailJob(s, run, message, now), run, k)
  {
  }

  lemma WorkEnds(s: System, run: Id, stage: Stage, out: Rendered, outcome: Outcome, now: int, cfg: Config, k: nat)
    requires run in s.store.jobs && s.store.jobs[run].status == Running && StageSteps(stage) <= k + 1
    ensures EndsWithin(WorkStep(s, run, stage, out, outcome, now, cfg), run, k)
  {
    if stage == Publication {
      FailEnds(s, run, "report cannot be published", now, k);
    } else if outcome.Raises? {
      FailEnds(s, run, outcome.message, now, k);
    } else if stage == ReportRendering {
      FailEnds(s, run, "HTML and PDF artifacts are required", now, k);
      FailEnds(s, run, "HTML artifact exceeds limit", now, k);
      FailEnds(s, run, "PDF artifact exceeds limit", now, k);
    }
  }

  lemma AttemptEnds(s: System, run: Id, u: Update, now: int, next: WorkerState, k: nat)
    requires run in s.store.jobs && s.store.jobs[run].status == Running
    requires if u.status.Some? then Terminal(u.status.value)
             else next.Executing? && next.run == run && Remaining(next.phase) <= k
    ensures EndsWithin(Attempt(s, run, u, now, next), run, k)
  {
  }

  /** A worker step ends its job or brings it closer to its end. */
  lemma ExecuteEnds(s: System, outcome: Outcome, now: int, cfg: Config, run: Id, k: nat)
    requires WorkerOk(s.store, s.published, s.worker) && s.worker.Executing? && s.worker.run == run
    requires Remaining(s.worker.phase) <= k + 1
    ensures EndsWithin(ExecuteStep(s, outcome, now, cfg), run, k)
  {
    var Executing(_, phase, out) := s.worker;
    match phase
    case Begin =>
    case Check(_) => AttemptEnds(s, run, NO_UPDATE.(status := Some(Cancelled)), now, Idle, k);
    case Enter(stage) =>
      AttemptEnds(s, run, NO_UPDATE.(stage := Some(stage)), now, Executing(run, Work(stage), out), k);
    case Work(stage) => WorkEnds(s, run, stage, out, outcome, now, cfg, k);
    case Write(_) => FailEnds(s, run, "artifact cannot be stored", now, k);
    case Finish => AttemptEnds(s, run, COMPLETION, now, Idle, k);
  }

  lemma StepEnds(s: System, a: Action, cfg: Config, run: Id, k: nat)
    requires WorkerOk(s.store, s.published, s.worker) && EndsWithin(s, run, k)
    ensures EndsWithin(Apply(s, a, cfg), run, if a.Execute? && k > 0 then k - 1 else k)
  {
    if Terminal(s.store.jobs[run].status) {
      StepFreezesTerminal(s, a, cfg, run);
    } else if a.Stage? || a.Validate? || a.Deduplicate? || a.Commit? {
      IntakeEffect(s, a, cfg);
    } else if a.Execute? {
      ExecuteEnds(s, a.outcome, a.now, cfg, run, k - 1);
    }
  }

  lemma {:induction false} RunEnds(s: System, actions: seq<Action>, cfg: Config, run: Id, k: nat)
    requires Inv(s, cfg) && EndsWithin(s, run, k) && Executes(actions) >= k
    ensures EndsWithin(Run(s, actions, cfg), run, 0)
    decreases |actions|
  {
    if actions != [] {
      var a := actions[0];
      StepEnds(s, a, cfg, run, k);
      ApplyKeepsInv(s, a, cfg);
      RunEnds(Apply(s, a, cfg), actions[1..], cfg, run, if a.Execute? && k > 0 then k - 1 else k);
    }
  }

  /**
   Progress: from every reachable state in which the worker executes a job, every continuation with as many worker
   steps as the job's phase still needs, at most 22 and 20 from its start, leaves the job completed, failed or
   cancelled.
   */
  lemma ClaimedJobsEnd(s: System, actions: seq<Action>, cfg: Config)
    requires Reachable(s, cfg) && s.worker.Executing? && Executes(actions) >= Remaining(s.worker.phase)
    ensures Ended(Run(s, actions, cfg), s.worker.run)
  {
    ReachableMeansInv(s, cfg);
    RunEnds(s, actions, cfg, s.worker.run, Remaining(s.worker.phase));
    EndsNow(Run(s, actions, cfg), s.worker.run);
  }

  predicate Ended(s: System, run: Id)
  {
    run in s.store.jobs && s.store.jobs[run].status in {Completed, Failed, Cancelled}
  }

  lemma EndsNow(s: System, run: Id)
    requires EndsWithin(s, run, 0)
    ensures Ended(s, run)
  {
    StepsLeft(if s.worker.Executing? then s.worker.phase else Begin);
  }

  lemma StepsLeft(phase: Phase)
    ensures 1 <= Remaining(phase) <= 22
  {
  }
}
