/**
 The intake, the cancel route and the worker as an object over the job store and the catalog.  Each
 method is one atomic step and is proved equal to the corresponding step of `JobProtocol`.
 */
module CaptureService {
  import opened Prelude
  import opened Jobs
  import opened JobStore
  import opened JobProtocol
  import Catalog

  /** The state without the catalog. */
  ghost function BesidesCatalog(s: System): System { s.(published := map[]) }

  lemma FailIgnoresCatalog(s: System, published: map<Id, Bytes>, run: Id, message: string, now: int)
    ensures FailJob(s.(published := published), run, message, now) ==
            FailJob(s, run, message, now).(published := published)
  {
  }

  /** The publication step as the publisher's answer and its new view give it. */
  lemma PublishAnswer(
    s: System, t: System, run: Id, out: Rendered, now: int, cfg: Config, ok: bool, published: map<Id, Bytes>,
    quiet: bool)
    requires run in s.store.jobs
    requires ok <==> Catalog.Publish(s.published, s.store.jobs[run].caseId, out.json, cfg.reports).Some?
    requires quiet ==> published == Catalog.Expected(s.published, (s.store.jobs[run].caseId, out.json), cfg.reports)
    requires var mid := s.(published := published);
             t == if ok then mid.(worker := Executing(run, Finish, out))
                  else FailJob(mid, run, "report cannot be published", now)
    ensures quiet ==> t == PublishStep(s, run, out, now, cfg)
    ensures BesidesCatalog(t) == BesidesCatalog(PublishStep(s, run, out, now, cfg))
  {
    FailIgnoresCatalog(s, published, run, "report cannot be published", now);
  }

  class Service {
    const store: FilesystemJobStore
    const publisher: Catalog.Publisher
    var intake: IntakeState
    var worker: WorkerState
    var staged: nat
    ghost var aborted: set<nat>

    /** The report root is one its reader accepts. */
    ghost predicate Valid()
      reads this, publisher
    {
      Catalog.ReaderOk(publisher.root, publisher.limits)
    }

    /** The report root holds what this publisher wrote, and a full catalog still fits its reader. */
    ghost predicate Owned()
      reads this, publisher
    {
      Catalog.GoodRoot(publisher.root, publisher.limits) && Catalog.Small(publisher.limits)
    }

    /** Publishing for `run` would disturb no other case. */
    ghost predicate Quiet(run: Id, out: Rendered)
      reads this, store, publisher
    {
      run in store.jobs ==>
        Catalog.Undisturbed(publisher.root, store.jobs[run].caseId, out.json, publisher.limits)
    }

    /** The next worker step, if it publishes, would disturb no other case. */
    ghost predicate NextQuiet()
      reads this, store, publisher
    {
      worker.Executing? && worker.phase == Phase.Work(Publication) ==> Quiet(worker.run, worker.out)
    }

    /** The report root once `run` has published, whether or not that disturbs another case. */
    ghost function RootOnce(run: Id, out: Rendered): Catalog.Root
      reads this, store, publisher
    {
      if run !in store.jobs then publisher.root
      else Catalog.Published(publisher.root, (store.jobs[run].caseId, out.json), publisher.limits)
    }

    ghost function NextRoot(): Catalog.Root
      reads this, store, publisher
    {
      if worker.Executing? && worker.phase == Phase.Work(Publication) then RootOnce(worker.run, worker.out)
      else publisher.root
    }

    /** The state of the protocol: the catalog counts as what its reader sees. */
    ghost function View(): System
      reads this, store, publisher
    {
      System(store.View(), Catalog.View(publisher.root), intake, worker, staged, aborted)
    }

    ghost function Limits(): Config { Config(store.maxJobs, publisher.limits) }

    constructor (maxJobs: nat, reports: Catalog.Limits)
      ensures Valid() && (Catalog.Small(reports) ==> Owned())
      ensures View() == INITIAL && Limits() == Config(maxJobs, reports) && fresh(store) && fresh(publisher)
    {
      store := new FilesystemJobStore(maxJobs);
      publisher := new Catalog.Publisher(reports);
      intake, worker, staged, aborted := Free, Idle, 0, {};
    }

    // ---------- Intake ----------

    method Stage(id: Id, sha: string, header: Bytes, request: Request)
      modifies this, store
      ensures View() == Apply(old(View()), Action.Stage(id, sha, header, request), Limits())
    {
      if !intake.Free? || header == [] {
        return;
      }
      var ok := store.StageCapture(id, Upload(staged, sha, header));
      if ok {
        intake, staged := Staged(id, request), staged + 1;
      }
    }

    method AbortIntake(upload: Id)
      modifies this, store
      ensures View() == Abort(old(View()), upload)
    {
      if upload in store.quarantine {
        aborted := aborted + {store.quarantine[upload].serial};
      }
      store.AbortStaged(upload);
      intake := Free;
    }

    method Validate()
      modifies this, store
      ensures View() == Apply(old(View()), Action.Validate, Limits())
    {
      if intake.Staged? {
        var Staged(upload, request) := intake;
        if upload in store.quarantine && MagicMatches(store.quarantine[upload].header, request.format) {
          intake := Checked(upload, request);
        } else {
          AbortIntake(upload);
        }
      }
    }

    method Deduplicate()
      modifies this, store
      ensures View() == Apply(old(View()), Action.Deduplicate, Limits())
      ensures old(intake).Checked? && old(intake).upload in old(store.quarantine) ==>
                var Checked(upload, request) := old(intake);
                var jobs, sha := old(store.jobs), old(store.quarantine)[upload].sha;
                if forall run :: (run in jobs && jobs[run].sha == sha && jobs[run].profile == request.profile &&
                                  jobs[run].hostname == request.hostname) ==> jobs[run].status in {Failed, Cancelled}
                then intake == Cleared(upload, request) && store.quarantine == old(store.quarantine)
                else intake == Free && upload !in store.quarantine
    {
      if intake.Checked? {
        var Checked(upload, request) := intake;
        if upload !in store.quarantine {
          AbortIntake(upload);
          return;
        }
        var duplicate := store.FindDuplicate(Key(store.quarantine[upload].sha, request.profile, request.hostname));
        if duplicate.None? {
          intake := Cleared(upload, request);
        } else {
          AbortIntake(upload);
        }
      }
    }

    method Commit(run: Id, caseId: Option<Id>, fits: bool, now: int)
      modifies this, store
      ensures View() == Apply(old(View()), Action.Commit(run, caseId, fits, now), Limits())
    {
      if intake.Cleared? {
        var Cleared(upload, request) := intake;
        if caseId.None? || upload !in store.quarantine {
          AbortIntake(upload);
          return;
        }
        var key := Key(store.quarantine[upload].sha, request.profile, request.hostname);
        var error := store.CommitStaged(upload, run, NewJob(key, request, caseId.value, now), fits);
        if error.None? {
          intake := Free;
        } else {
          AbortIntake(upload);
        }
      }
    }

    method Cancel(run: Id, now: int) returns (error: Option<JobError>)
      modifies store
      ensures View() == Apply(old(View()), Action.Cancel(run, now), Limits())
      ensures error.None? <==> run in old(store.jobs) && old(store.jobs)[run].status in {Queued, Running}
    {
      error := store.RequestCancel(run, now);
    }

    // ---------- Worker ----------

    method BeginClaim() returns (ghost queue: seq<Id>)
      modifies this
      ensures View() == Apply(old(View()), Action.BeginClaim(queue), Limits())
      ensures old(worker).Idle? ==> IsClaimQueue(old(store.View()), queue) && worker == Claiming(queue)
    {
      queue := [];
      if worker.Idle? {
        var candidates := store.ClaimQueue();
        queue := candidates;
        worker := Claiming(candidates);
      }
    }

    method Claim(now: int)
      modifies this, store
      ensures View() == Apply(old(View()), Action.Claim(now), Limits())
    {
      if worker.Claiming? {
        var queue := worker.queue;
        if queue == [] {
          worker := Sweeping(set run | run in store.jobs &&
                               store.jobs[run].status == Queued && store.jobs[run].cancelRequested);
          return;
        }
        var error := store.UpdateJob(queue[0], NO_UPDATE.(status := Some(Running)), now);
        if error.None? {
          worker := Executing(queue[0], Begin, NOTHING);
        } else if error == Some(Conflict) {
          worker := Claiming(queue[1..]);
        } else {
          worker := Dead;
        }
      } else if worker == Sweeping({}) {
        worker := Idle;
      }
    }

    method Sweep(run: Id, now: int)
      modifies this, store
      ensures View() == Apply(old(View()), Action.Sweep(run, now), Limits())
    {
      if worker.Sweeping? && run in worker.left {
        var error := store.UpdateJob(run, NO_UPDATE.(status := Some(Cancelled)), now);
        worker := if error.None? then Sweeping(worker.left - {run}) else Dead;
      }
    }

    method Fail(run: Id, message: string, now: int)
      modifies this, store
      ensures View() == FailJob(old(View()), run, message, now)
    {
      var text := if |message| > 1000 then message[..1000] else message;
      var error := store.UpdateJob(run, NO_UPDATE.(status := Some(Failed), error := Some(text)), now);
      worker := if error.None? then Idle else Dead;
    }

    method Update(run: Id, u: Update, now: int, next: WorkerState)
      modifies this, store
      ensures View() == Attempt(old(View()), run, u, now, next)
    {
      var error := store.UpdateJob(run, u, now);
      if error.None? {
        worker := next;
      } else {
        Fail(run, "update failed", now);
      }
    }

    method Write(run: Id, name: ArtifactName, out: Rendered, now: int)
      modifies this, store
      ensures View() == WriteStep(old(View()), run, name, out, now)
    {
      var error := store.WriteArtifact(run, name, Content(out, name));
      if error.None? {
        worker := Executing(run, AfterWrite(name), out);
      } else {
        Fail(run, "artifact cannot be stored", now);
      }
    }

    /** The report root alone: what a publication does to it. */
    method PublishCase(caseId: Id, json: Bytes) returns (ok: bool)
      requires Valid()
      modifies publisher
      ensures publisher.root == Catalog.Published(old(publisher.root), (caseId, json), publisher.limits)
      ensures ok <==> Catalog.Publish(Catalog.View(old(publisher.root)), caseId, json, publisher.limits).Some?
      ensures Catalog.Undisturbed(old(publisher.root), caseId, json, publisher.limits) ==>
                Valid() && Catalog.View(publisher.root) ==
                           Catalog.Expected(Catalog.View(old(publisher.root)), (caseId, json), publisher.limits)
      ensures old(Owned()) ==> Owned() && Catalog.Undisturbed(old(publisher.root), caseId, json, publisher.limits)
    {
      var done, _ := publisher.PublishReport(caseId, json);
      ok := done;
      Catalog.PublishedMeans(old(publisher.root), (caseId, json), publisher.limits);
    }

    method Publish(run: Id, out: Rendered, now: int)
      requires Valid()
      modifies this, store, publisher
      ensures old(Quiet(run, out)) ==> Valid() && View() == PublishStep(old(View()), run, out, now, Limits())
      ensures old(Owned()) ==> Owned() && old(Quiet(run, out))
      ensures publisher.root == old(RootOnce(run, out))
      ensures BesidesCatalog(View()) == BesidesCatalog(PublishStep(old(View()), run, out, now, Limits()))
    {
      if run !in store.jobs {
        Fail(run, "analysis run not found", now);
        return;
      }
      ghost var before, quiet := View(), Quiet(run, out);
      var ok := PublishCase(store.jobs[run].caseId, out.json);
      ghost var published := Catalog.View(publisher.root);
      if ok {
        worker := Executing(run, Finish, out);
      } else {
        Fail(run, "report cannot be published", now);
      }
      PublishAnswer(before, View(), run, out, now, Limits(), ok, published, quiet);
    }

    method Work(run: Id, stage: Stage, out: Rendered, outcome: Outcome, now: int)
      requires Valid()
      modifies this, store, publisher
      ensures (stage == Publication ==> old(Quiet(run, out))) ==>
                Valid() && View() == WorkStep(old(View()), run, stage, out, outcome, now, Limits())
      ensures old(Owned()) ==> Owned() && (stage == Publication ==> old(Quiet(run, out)))
      ensures publisher.root == if stage == Publication then old(RootOnce(run, out)) else old(publisher.root)
      ensures BesidesCatalog(View()) == BesidesCatalog(WorkStep(old(View()), run, stage, out, outcome, now, Limits()))
    {
      if stage == Publication {
        Publish(run, out, now);
      } else if outcome.Raises? {
        Fail(run, outcome.message, now);
      } else if stage != ReportRendering {
        worker := Executing(run, Check(NextStage(stage)), out);
      } else if outcome.html.None? || outcome.pdf.None? {
        Fail(run, "HTML and PDF artifacts are required", now);
      } else if |outcome.html.value| > MAX_HTML_BYTES {
        Fail(run, "HTML artifact exceeds limit", now);
      } else if |outcome.pdf.value| > MAX_PDF_BYTES {
        Fail(run, "PDF artifact exceeds limit", now);
      } else {
        worker := Executing(run, Phase.Write(ReportJson),
                            Rendered(outcome.json, outcome.html.value, outcome.pdf.value));
      }
    }

    /** The steps between the stages: entry, cancel checks, stage updates, artifact writes and completion. */
    method Proceed(outcome: Outcome, now: int)
      requires worker.Executing? && !worker.phase.Work?
      modifies this, store
      ensures View() == Apply(old(View()), Action.Execute(outcome, now), Limits())
      ensures old(NextQuiet()) && publisher.root == old(NextRoot())
    {
      var Executing(run, phase, out) := worker;
      match phase
      case Begin =>
        worker := if run !in store.jobs then Dead
                  else if store.jobs[run].status != Running then Idle
                  else Executing(run, Check(DeterministicAnalysis), out);
      case Check(stage) =>
        var cancelled := store.IsCancelRequested(run);
        if cancelled {
          Update(run, NO_UPDATE.(status := Some(Cancelled)), now, Idle);
        } else {
          worker := Executing(run, Enter(stage), out);
        }
      case Enter(stage) =>
        Update(run, NO_UPDATE.(stage := Some(stage)), now, Executing(run, Phase.Work(stage), out));
      case Write(name) => Write(run, name, out, now);
      case Finish => Update(run, COMPLETION, now, Idle);
    }

    /** The stage at hand. */
    method WorkOn(outcome: Outcome, now: int)
      requires Valid() && worker.Executing? && worker.phase.Work?
      modifies this, store, publisher
      ensures old(NextQuiet()) ==> Valid() && View() == Apply(old(View()), Action.Execute(outcome, now), Limits())
      ensures old(Owned()) ==> Owned() && old(NextQuiet())
      ensures publisher.root == old(NextRoot())
      ensures BesidesCatalog(View()) == BesidesCatalog(Apply(old(View()), Action.Execute(outcome, now), Limits()))
    {
      Work(worker.run, worker.phase.stage, worker.out, outcome, now);
    }

    /** One step of the pipeline of the claimed job. */
    method Execute(outcome: Outcome, now: int)
      requires Valid()
      modifies this, store, publisher
      ensures old(NextQuiet()) ==> Valid() && View() == Apply(old(View()), Action.Execute(outcome, now), Limits())
      ensures old(Owned()) ==> Owned() && old(NextQuiet())
      ensures publisher.root == old(NextRoot())
      ensures BesidesCatalog(View()) == BesidesCatalog(Apply(old(View()), Action.Execute(outcome, now), Limits()))
    {
      if !worker.Executing? {
        return;
      }
      if worker.phase.Work? {
        WorkOn(outcome, now);
      } else {
        Proceed(outcome, now);
      }
    }
  }
}
