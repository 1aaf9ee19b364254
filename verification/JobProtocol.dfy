/**
 The capture-job protocol: the intake API, the cancel API and one worker sharing the job store and the
 catalog, as a transition system.

 Each store operation is one atomic step; `claim_next` is split into its snapshot and one step per
 candidate, and the worker pipeline into one step per cancel check, status update, stage, artifact write
 and publication.  Intakes are serialised with each other and interleave freely with everything else.
 A run is any sequence of actions; an action that is not enabled leaves the system as it is.
 */
module JobProtocol {
  import opened Prelude
  import opened Jobs
  import Catalog

  datatype Config = Config(maxJobs: nat, reports: Catalog.Limits)

  // ---------- State ----------

  datatype Request = Request(filename: string, format: string, profile: string, hostname: Option<string>)

  datatype IntakeState =
    | Free
    | Staged(upload: Id, request: Request)
    | Checked(upload: Id, request: Request)
    | Cleared(upload: Id, request: Request)

  datatype Rendered = Rendered(json: Bytes, html: Bytes, pdf: Bytes)

  datatype Phase =
    | Begin
    | Check(stage: Stage)
    | Enter(stage: Stage)
    | Work(stage: Stage)
    | Write(name: ArtifactName)
    | Finish

  datatype WorkerState =
    | Idle
    | Claiming(queue: seq<Id>)
    | Sweeping(left: set<Id>)
    | Executing(run: Id, phase: Phase, out: Rendered)
    | Dead

  /** `staged` counts the uploads ever staged and `aborted` holds the serials of those deleted again. */
  datatype System = System(
    store: Store, published: map<Id, Bytes>, intake: IntakeState, worker: WorkerState,
    staged: nat, aborted: set<nat>)

  const EMPTY_STORE := Store(map[], {}, map[], map[], map[])
  const INITIAL := System(EMPTY_STORE, map[], Free, Idle, 0, {})
  const NOTHING := Rendered([], [], [])

  // ---------- Actions ----------

  /** What a pipeline stage does: it raises, or returns (with rendered artifacts in the rendering stage). */
  datatype Outcome = Raises(message: string) | Returns(json: Bytes, html: Option<Bytes>, pdf: Option<Bytes>)

  datatype Action =
    | Stage(id: Id, sha: string, header: Bytes, request: Request)
    | Validate
    | Deduplicate
    | Commit(run: Id, caseId: Option<Id>, fits: bool, now: int)
    | Cancel(run: Id, now: int)
    | BeginClaim(queue: seq<Id>)
    | Claim(now: int)
    | Sweep(run: Id, now: int)
    | Execute(outcome: Outcome, now: int)

  // ---------- Intake ----------

  const PCAPNG_MAGIC: Bytes := [0x0a, 0x0d, 0x0d, 0x0a]
  const PCAP_MAGICS: set<Bytes> := {[0xd4, 0xc3, 0xb2, 0xa1], [0xa1, 0xb2, 0xc3, 0xd4],
                                    [0x4d, 0x3c, 0xb2, 0xa1], [0xa1, 0xb2, 0x3c, 0x4d]}

  predicate MagicMatches(header: Bytes, format: string)
  {
    && |header| >= 4
    && if format == "pcapng" then header[..4] == PCAPNG_MAGIC else header[..4] in PCAP_MAGICS
  }

  function StageUpload(s: System, id: Id, sha: string, header: Bytes, request: Request): System
  {
    if !s.intake.Free? || id in s.store.quarantine || header == [] then s
    else s.(store := s.store.(quarantine := s.store.quarantine[id := Upload(s.staged, sha, header)]),
            intake := Staged(id, request), staged := s.staged + 1)
  }

  /** `abort_staged`, and the end of the intake. */
  function Abort(s: System, upload: Id): System
  {
    s.(store := s.store.(quarantine := s.store.quarantine - {upload}), intake := Free,
       aborted := s.aborted + if upload in s.store.quarantine then {s.store.quarantine[upload].serial} else {})
  }

  function ValidateUpload(s: System): System
  {
    match s.intake
    case Staged(upload, request) =>
      if upload in s.store.quarantine && MagicMatches(s.store.quarantine[upload].header, request.format)
      then s.(intake := Checked(upload, request))
      else Abort(s, upload)
    case _ => s
  }

  function RequestKey(st: Store, upload: Id, request: Request): Key
    requires upload in st.quarantine
  {
    Key(st.quarantine[upload].sha, request.profile, request.hostname)
  }

  function DeduplicateUpload(s: System): System
  {
    match s.intake
    case Checked(upload, request) =>
      if upload in s.store.quarantine && !HasDuplicate(s.store, RequestKey(s.store, upload, request))
      then s.(intake := Cleared(upload, request))
      else Abort(s, upload)
    case _ => s
  }

  function NewJob(key: Key, request: Request, caseId: Id, now: int): Job
  {
    Job(caseId, Queued, Intake, key.sha, request.filename, request.format, key.profile, key.hostname,
        now, now, None, Availability(false, false, false), false)
  }

  function CommitUpload(s: System, run: Id, caseId: Option<Id>, fits: bool, now: int, cfg: Config): System
  {
    match s.intake
    case Cleared(upload, request) =>
      if caseId.None? || upload !in s.store.quarantine then Abort(s, upload)
      else
        var job := NewJob(RequestKey(s.store, upload, request), request, caseId.value, now);
        (match CommitStaged(s.store, upload, run, job, cfg.maxJobs, fits)
         case Ok(store) => s.(store := store, intake := Free)
         case Err(_) => Abort(s, upload))
    case _ => s
  }

  function CancelRun(s: System, run: Id, now: int): System
  {
    match RequestCancel(s.store, run, now)
    case Ok(store) => s.(store := store)
    case Err(_) => s
  }

  // ---------- Worker ----------

  function FailJob(s: System, run: Id, message: string, now: int): System
  {
    var text := if |message| > 1000 then message[..1000] else message;
    match UpdateJob(s.store, run, NO_UPDATE.(status := Some(Failed), error := Some(text)), now)
    case Ok(store) => s.(store := store, worker := Idle)
    case Err(_) => s.(worker := Dead)
  }

  /** An update inside the pipeline; an error it raises fails the job. */
  function Attempt(s: System, run: Id, u: Update, now: int, next: WorkerState): System
  {
    match UpdateJob(s.store, run, u, now)
    case Ok(store) => s.(store := store, worker := next)
    case Err(_) => FailJob(s, run, "update failed", now)
  }

  function ClaimStep(s: System, now: int): System
  {
    match s.worker
    case Claiming(queue) =>
      if queue == [] then
        s.(worker := Sweeping(set run | run in s.store.jobs &&
                                s.store.jobs[run].status == Queued && s.store.jobs[run].cancelRequested))
      else
        (match UpdateJob(s.store, queue[0], NO_UPDATE.(status := Some(Running)), now)
         case Ok(store) => s.(store := store, worker := Executing(queue[0], Begin, NOTHING))
         case Err(Conflict) => s.(worker := Claiming(queue[1..]))
         case Err(_) => s.(worker := Dead))
    case Sweeping(left) => if left == {} then s.(worker := Idle) else s
    case _ => s
  }

  function SweepStep(s: System, run: Id, now: int): System
  {
    if s.worker.Sweeping? && run in s.worker.left then
      match UpdateJob(s.store, run, NO_UPDATE.(status := Some(Cancelled)), now)
      case Ok(store) => s.(store := store, worker := Sweeping(s.worker.left - {run}))
      case Err(_) => s.(worker := Dead)
    else s
  }

  function NextStage(stage: Stage): Stage
  {
    match stage
    case Intake => DeterministicAnalysis
    case DeterministicAnalysis => PolicyScoring
    case PolicyScoring => MlAdvisory
    case MlAdvisory => ReportRendering
    case _ => Publication
  }

  function RenderStep(s: System, run: Id, outcome: Outcome, now: int): System
    requires outcome.Returns?
  {
    if outcome.html.None? || outcome.pdf.None? then FailJob(s, run, "HTML and PDF artifacts are required", now)
    else if |outcome.html.value| > MAX_HTML_BYTES then FailJob(s, run, "HTML artifact exceeds limit", now)
    else if |outcome.pdf.value| > MAX_PDF_BYTES then FailJob(s, run, "PDF artifact exceeds limit", now)
    else
      s.(worker := Executing(run, Write(ReportJson),
                             Rendered(outcome.json, outcome.html.value, outcome.pdf.value)))
  }

  function PublishStep(s: System, run: Id, out: Rendered, now: int, cfg: Config): System
  {
    if run !in s.store.jobs then FailJob(s, run, "analysis run not found", now)
    else
      match Catalog.Publish(s.published, s.store.jobs[run].caseId, out.json, cfg.reports)
      case Some(published) => s.(published := published, worker := Executing(run, Finish, out))
      case None => FailJob(s, run, "report cannot be published", now)
  }

  function WorkStep(s: System, run: Id, stage: Stage, out: Rendered, outcome: Outcome, now: int, cfg: Config): System
  {
    if stage == Publication then PublishStep(s, run, out, now, cfg)
    else if outcome.Raises? then FailJob(s, run, outcome.message, now)
    else if stage == ReportRendering then RenderStep(s, run, outcome, now)
    else s.(worker := Executing(run, Check(NextStage(stage)), out))
  }

  function Content(out: Rendered, name: ArtifactName): Bytes
  {
    match name
    case ReportJson => out.json
    case ReportHtml => out.html
    case ReportPdf => out.pdf
  }

  function AfterWrite(name: ArtifactName): Phase
  {
    match name
    case ReportJson => Write(ReportHtml)
    case ReportHtml => Write(ReportPdf)
    case ReportPdf => Check(Publication)
  }

  function WriteStep(s: System, run: Id, name: ArtifactName, out: Rendered, now: int): System
  {
    match WriteArtifact(s.store, run, name, Content(out, name))
    case Ok(store) => s.(store := store, worker := Executing(run, AfterWrite(name), out))
    case Err(_) => FailJob(s, run, "artifact cannot be stored", now)
  }

  const COMPLETION := Update(Some(Completed), Some(Publication), None, Some(Availability(true, true, true)), None)

  function ExecuteStep(s: System, outcome: Outcome, now: int, cfg: Config): System
  {
    match s.worker
    case Executing(run, phase, out) =>
      (match phase
       case Begin =>
         if run !in s.store.jobs then s.(worker := Dead)
         else if s.store.jobs[run].status != Running then s.(worker := Idle)
         else s.(worker := Executing(run, Check(DeterministicAnalysis), out))
       case Check(stage) =>
         if IsCancelRequested(s.store, run)
         then Attempt(s, run, NO_UPDATE.(status := Some(Cancelled)), now, Idle)
         else s.(worker := Executing(run, Enter(stage), out))
       case Enter(stage) =>
         Attempt(s, run, NO_UPDATE.(stage := Some(stage)), now, Executing(run, Work(stage), out))
       case Work(stage) => WorkStep(s, run, stage, out, outcome, now, cfg)
       case Write(name) => WriteStep(s, run, name, out, now)
       case Finish => Attempt(s, run, COMPLETION, now, Idle))
    case _ => s
  }

  // ---------- Runs ----------

  ghost function Apply(s: System, a: Action, cfg: Config): System
  {
    match a
    case Stage(id, sha, header, request) => StageUpload(s, id, sha, header, request)
    case Validate => ValidateUpload(s)
    case Deduplicate => DeduplicateUpload(s)
    case Commit(run, caseId, fits, now) => CommitUpload(s, run, caseId, fits, now, cfg)
    case Cancel(run, now) => CancelRun(s, run, now)
    case BeginClaim(queue) =>
      if s.worker.Idle? && IsClaimQueue(s.store, queue) then s.(worker := Claiming(queue)) else s
    case Claim(now) => ClaimStep(s, now)
    case Sweep(run, now) => SweepStep(s, run, now)
    case Execute(outcome, now) => ExecuteStep(s, outcome, now, cfg)
  }

  ghost function Run(s: System, actions: seq<Action>, cfg: Config): System
    decreases |actions|
  {
    if actions == [] then s else Run(Apply(s, actions[0], cfg), actions[1..], cfg)
  }

  // ---------- Invariants ----------

  ghost predicate NoneRunning(st: Store)
  {
    forall run :: run in st.jobs ==> st.jobs[run].status != Running
  }

  ghost predicate OnlyRunning(st: Store, run: Id)
  {
    forall r :: r in st.jobs ==> (st.jobs[r].status == Running <==> r == run)
  }

  /** At most one job per intake key is queued, running or completed. */
  ghost predicate Unique(st: Store)
  {
    forall a, b ::
      (a in st.jobs && b in st.jobs && Active(st.jobs[a]) && Active(st.jobs[b]) &&
       KeyOf(st.jobs[a]) == KeyOf(st.jobs[b])) ==> a == b
  }

  /** No queued job has a cancel request, and every cancel flag belongs to a job. */
  ghost predicate QueueClean(st: Store)
  {
    && (forall run :: run in st.jobs && st.jobs[run].status == Queued ==>
                        !st.jobs[run].cancelRequested && run !in st.flags)
    && (forall run :: run in st.flags ==> run in st.jobs)
  }

  predicate HasArtifact(st: Store, run: Id, name: ArtifactName, bytes: Bytes)
  {
    (run, name) in st.artifacts && st.artifacts[(run, name)] == bytes
  }

  predicate AllStored(st: Store, run: Id, out: Rendered)
  {
    && HasArtifact(st, run, ReportJson, out.json)
    && HasArtifact(st, run, ReportHtml, out.html)
    && HasArtifact(st, run, ReportPdf, out.pdf)
  }

  /** How far the artifacts of the executing job have been written. */
  predicate Progress(st: Store, run: Id, phase: Phase, out: Rendered)
  {
    match phase
    case Write(ReportHtml) => HasArtifact(st, run, ReportJson, out.json)
    case Write(ReportPdf) => HasArtifact(st, run, ReportJson, out.json) && HasArtifact(st, run, ReportHtml, out.html)
    case Check(stage) => stage == Publication ==> AllStored(st, run, out)
    case Enter(stage) => stage == Publication ==> AllStored(st, run, out)
    case Work(stage) => stage == Publication ==> AllStored(st, run, out)
    case Finish => AllStored(st, run, out)
    case _ => true
  }

  ghost predicate WorkerOk(st: Store, published: map<Id, Bytes>, worker: WorkerState)
  {
    match worker
    case Idle => NoneRunning(st)
    case Claiming(queue) =>
      && NoneRunning(st)
      && forall run :: run in queue ==> run in st.jobs && st.jobs[run].status in {Queued, Cancelled}
    case Sweeping(left) => NoneRunning(st) && left == {}
    case Executing(run, phase, out) =>
      && run in st.jobs
      && OnlyRunning(st, run)
      && Progress(st, run, phase, out)
      && (phase == Finish ==> st.jobs[run].caseId in published && published[st.jobs[run].caseId] == out.json)
    case Dead => false
  }

  ghost predicate Captured(captures: map<Id, Upload>, n: nat)
  {
    exists run :: run in captures && captures[run].serial == n
  }

  ghost predicate Quarantined(quarantine: map<Id, Upload>, n: nat)
  {
    exists u :: u in quarantine && quarantine[u].serial == n
  }

  /** Every upload staged so far is in quarantine, aborted, or the capture of one job; never two of these. */
  ghost predicate UploadsConserved(quarantine: map<Id, Upload>, captures: map<Id, Upload>,
                                   staged: nat, aborted: set<nat>)
  {
    && (forall u :: u in quarantine ==> quarantine[u].serial < staged)
    && (forall run :: run in captures ==> captures[run].serial < staged)
    && (forall n :: n in aborted ==> n < staged)
    && (forall n :: 0 <= n < staged ==> n in aborted || Captured(captures, n) || Quarantined(quarantine, n))
    && (forall n: nat :: !(n in aborted && Captured(captures, n)))
    && (forall n: nat :: !(n in aborted && Quarantined(quarantine, n)))
    && (forall n: nat :: !(Captured(captures, n) && Quarantined(quarantine, n)))
    && (forall a, b :: (a in captures && b in captures && captures[a].serial == captures[b].serial) ==> a == b)
  }

  ghost predicate IntakeOk(st: Store, intake: IntakeState)
  {
    && st.quarantine.Keys == (if intake.Free? then {} else {intake.upload})
    && (intake.Cleared? ==>
          intake.upload in st.quarantine &&
          !HasDuplicate(st, RequestKey(st, intake.upload, intake.request)))
  }

  ghost predicate CapturesMatch(st: Store)
  {
    && st.captures.Keys == st.jobs.Keys
    && forall run :: run in st.jobs ==> st.captures[run].sha == st.jobs[run].sha
  }

  /** A completed job has its three artifacts. */
  ghost predicate CompletedStored(st: Store)
  {
    forall run :: run in st.jobs && st.jobs[run].status == Completed ==>
                    && st.jobs[run].artifacts == Availability(true, true, true)
                    && forall name :: (run, name) in st.artifacts
  }

  predicate Finishing(worker: WorkerState, run: Id)
  {
    worker.Executing? && worker.run == run && worker.phase == Finish
  }

  /** `run` accounts for what the catalog returns for `caseId`. */
  predicate Source(st: Store, published: map<Id, Bytes>, worker: WorkerState, caseId: Id, run: Id)
  {
    && caseId in published
    && run in st.jobs
    && st.jobs[run].caseId == caseId
    && HasArtifact(st, run, ReportJson, published[caseId])
    && (st.jobs[run].status == Completed || Finishing(worker, run))
  }

  ghost predicate PublishedTraced(st: Store, published: map<Id, Bytes>, worker: WorkerState)
  {
    forall caseId :: caseId in published ==> exists run :: Source(st, published, worker, caseId, run)
  }

  /** The part of the invariant that mentions neither the worker nor the catalog. */
  ghost predicate StoreInv(st: Store, intake: IntakeState, staged: nat, aborted: set<nat>, cfg: Config)
  {
    && |st.jobs| <= cfg.maxJobs
    && CapturesMatch(st)
    && Unique(st)
    && QueueClean(st)
    && CompletedStored(st)
    && UploadsConserved(st.quarantine, st.captures, staged, aborted)
    && IntakeOk(st, intake)
  }

  ghost predicate Inv(s: System, cfg: Config)
  {
    && StoreInv(s.store, s.intake, s.staged, s.aborted, cfg)
    && WorkerOk(s.store, s.published, s.worker)
    && PublishedTraced(s.store, s.published, s.worker)
  }

  // ---------- What cancels and the worker do to the store ----------

  /** The record of `run` moves along the life cycle; its identity and everything else stay. */
  ghost predicate Patched(st: Store, after: Store, run: Id)
  {
    && run in st.jobs
    && after.jobs.Keys == st.jobs.Keys
    && (forall r :: r in st.jobs && r != run ==> after.jobs[r] == st.jobs[r])
    && (forall r :: r != run ==> (r in after.flags <==> r in st.flags))
    && after.captures == st.captures && after.artifacts == st.artifacts && after.quarantine == st.quarantine
    && KeyOf(after.jobs[run]) == KeyOf(st.jobs[run]) && after.jobs[run].caseId == st.jobs[run].caseId
    && Advances(st.jobs[run], after.jobs[run])
    && (after.jobs[run].status == Completed ==> forall name :: (run, name) in st.artifacts)
  }

  /** queued -> running | cancelled, running -> running | completed | failed | cancelled. */
  predicate Advances(before: Job, after: Job)
  {
    && (before.status == Queued ==> after.status == Running || after.status == Cancelled)
    && (before.status == Running ==> after.status != Queued)
    && !Terminal(before.status)
    && (after.status == Completed ==> after.artifacts == Availability(true, true, true))
  }

  /** An artifact of the running job `run` is stored. */
  ghost predicate Wrote(st: Store, after: Store, run: Id)
  {
    && run in st.jobs && st.jobs[run].status == Running
    && after == st.(artifacts := after.artifacts)
    && st.artifacts.Keys <= after.artifacts.Keys
    && (forall r, name :: r != run ==> ReadArtifact(after, r, name) == ReadArtifact(st, r, name))
  }

  ghost predicate Moved(st: Store, after: Store)
  {
    || after == st
    || (exists run :: Patched(st, after, run))
    || (exists run :: Wrote(st, after, run))
  }

  lemma UpdatePatches(st: Store, run: Id, u: Update, now: int)
    requires run in st.jobs && Advances(st.jobs[run], Patch(st.jobs[run], u, now))
    requires u.status == Some(Completed) ==> forall name :: (run, name) in st.artifacts
    ensures UpdateJob(st, run, u, now).Ok?
    ensures var after := UpdateJob(st, run, u, now).value;
            && Patched(st, after, run) && Moved(st, after)
            && after.jobs[run] == Patch(st.jobs[run], u, now)
  {
    var after := UpdateJob(st, run, u, now).value;
    assert Patched(st, after, run);
  }

  lemma CancelMoves(s: System, run: Id, now: int)
    ensures Moved(s.store, CancelRun(s, run, now).store)
  {
    if run in s.store.jobs && !Terminal(s.store.jobs[run].status) {
      UpdatePatches(s.store, run, CancelUpdate(s.store.jobs[run]), now);
    }
  }

  lemma ClaimMoves(s: System, now: int)
    requires WorkerOk(s.store, s.published, s.worker)
    ensures Moved(s.store, ClaimStep(s, now).store)
  {
    if s.worker.Claiming? && s.worker.queue != [] {
      var run := s.worker.queue[0];
      assert run in s.worker.queue;
      if s.store.jobs[run].status == Queued {
        UpdatePatches(s.store, run, NO_UPDATE.(status := Some(Running)), now);
      }
    }
  }

  lemma FailMoves(s: System, run: Id, message: string, now: int)
    requires run in s.store.jobs && s.store.jobs[run].status == Running
    ensures Moved(s.store, FailJob(s, run, message, now).store)
  {
    var text := if |message| > 1000 then message[..1000] else message;
    UpdatePatches(s.store, run, NO_UPDATE.(status := Some(Failed), error := Some(text)), now);
  }

  lemma WorkMoves(s: System, run: Id, stage: Stage, out: Rendered, outcome: Outcome, now: int, cfg: Config)
    requires run in s.store.jobs && s.store.jobs[run].status == Running
    ensures Moved(s.store, WorkStep(s, run, stage, out, outcome, now, cfg).store)
  {
    if stage == Publication {
      FailMoves(s, run, "report cannot be published", now);
    } else if outcome.Raises? {
      FailMoves(s, run, outcome.message, now);
    } else if stage == ReportRendering {
      FailMoves(s, run, "HTML and PDF artifacts are required", now);
      FailMoves(s, run, "HTML artifact exceeds limit", now);
      FailMoves(s, run, "PDF artifact exceeds limit", now);
    }
  }

  lemma EveryArtifact(st: Store, run: Id, out: Rendered)
    requires AllStored(st, run, out)
    ensures forall name :: (run, name) in st.artifacts
  {
    forall name ensures (run, name) in st.artifacts {
      match name
      case ReportJson =>
      case ReportHtml =>
      case ReportPdf =>
    }
  }

  lemma WriteMoves(s: System, run: Id, name: ArtifactName, out: Rendered, now: int)
    requires run in s.store.jobs && s.store.jobs[run].status == Running
    ensures Moved(s.store, WriteStep(s, run, name, out, now).store)
  {
    var r := WriteArtifact(s.store, run, name, Content(out, name));
    if r.Ok? {
      assert Wrote(s.store, r.value, run);
    } else {
      FailMoves(s, run, "artifact cannot be stored", now);
    }
  }

  lemma ExecuteMoves(s: System, outcome: Outcome, now: int, cfg: Config)
    requires WorkerOk(s.store, s.published, s.worker)
    ensures Moved(s.store, ExecuteStep(s, outcome, now, cfg).store)
  {
    if s.worker.Executing? {
      var Executing(run, phase, out) := s.worker;
      match phase
      case Begin =>
      case Check(stage) =>
        if IsCancelRequested(s.store, run) {
          UpdatePatches(s.store, run, NO_UPDATE.(status := Some(Cancelled)), now);
        }
      case Enter(stage) => UpdatePatches(s.store, run, NO_UPDATE.(stage := Some(stage)), now);
      case Work(stage) => WorkMoves(s, run, stage, out, outcome, now, cfg);
      case Write(name) => WriteMoves(s, run, name, out, now);
      case Finish =>
        EveryArtifact(s.store, run, out);
        UpdatePatches(s.store, run, COMPLETION, now);
    }
  }

  // ---------- The store invariant is kept ----------

  lemma SameCount<K, V>(m: map<K, V>, n: map<K, V>)
    requires m.Keys == n.Keys
    ensures |m| == |n|
  {
    assert |m| == |m.Keys| && |n| == |n.Keys|;
  }

  /** No move makes a job active again. */
  lemma MoveAddsNoDuplicate(st: Store, after: Store, key: Key)
    requires Moved(st, after) && HasDuplicate(after, key)
    ensures HasDuplicate(st, key)
  {
    var r :| r in after.jobs && IsDuplicate(after, key, r);
    assert IsDuplicate(st, key, r);
  }

  lemma MoveKeepsUnique(st: Store, after: Store)
    requires Moved(st, after) && Unique(st)
    ensures Unique(after)
  {
    forall a, b | a in after.jobs && b in after.jobs && Active(after.jobs[a]) && Active(after.jobs[b]) &&
                  KeyOf(after.jobs[a]) == KeyOf(after.jobs[b])
      ensures a == b
    {
      assert Active(st.jobs[a]) && Active(st.jobs[b]);
      assert KeyOf(st.jobs[a]) == KeyOf(st.jobs[b]);
    }
  }

  lemma MoveKeepsCaptures(st: Store, after: Store)
    requires Moved(st, after) && CapturesMatch(st)
    ensures CapturesMatch(after) && |after.jobs| == |st.jobs|
    ensures after.quarantine == st.quarantine && after.captures == st.captures
  {
    SameCount(st.jobs, after.jobs);
    forall run | run in after.jobs ensures after.captures[run].sha == after.jobs[run].sha {
      assert KeyOf(after.jobs[run]) == KeyOf(st.jobs[run]);
    }
  }

  lemma MoveKeepsQueueClean(st: Store, after: Store)
    requires Moved(st, after) && QueueClean(st)
    ensures QueueClean(after)
  {
  }

  lemma MoveKeepsCompleted(st: Store, after: Store)
    requires Moved(st, after) && CompletedStored(st)
    ensures CompletedStored(after)
  {
    forall run | run in after.jobs && after.jobs[run].status == Completed
      ensures after.jobs[run].artifacts == Availability(true, true, true)
      ensures forall name :: (run, name) in after.artifacts
    {
      assert forall name :: (run, name) in st.artifacts;
    }
  }

  lemma MoveKeepsIntake(st: Store, after: Store, intake: IntakeState)
    requires Moved(st, after) && IntakeOk(st, intake)
    ensures IntakeOk(after, intake)
  {
    assert after.quarantine == st.quarantine;
    if intake.Cleared? && HasDuplicate(after, RequestKey(st, intake.upload, intake.request)) {
      MoveAddsNoDuplicate(st, after, RequestKey(st, intake.upload, intake.request));
    }
  }

  lemma MoveKeepsStore(st: Store, after: Store, intake: IntakeState, staged: nat, aborted: set<nat>, cfg: Config)
    requires Moved(st, after) && StoreInv(st, intake, staged, aborted, cfg)
    ensures StoreInv(after, intake, staged, aborted, cfg)
  {
    MoveKeepsCaptures(st, after);
    MoveKeepsUnique(st, after);
    MoveKeepsQueueClean(st, after);
    MoveKeepsCompleted(st, after);
    MoveKeepsIntake(st, after, intake);
  }

  // ---------- The worker invariant is kept ----------

  lemma SameRunningKeepsWorker(st: Store, after: Store, published: map<Id, Bytes>, worker: WorkerState, run: Id)
    requires WorkerOk(st, published, worker) && Patched(st, after, run)
    requires after.jobs[run].status == if st.jobs[run].status == Queued then Cancelled else st.jobs[run].status
    ensures WorkerOk(after, published, worker)
  {
  }

  lemma CancelKeepsWorker(s: System, run: Id, now: int)
    requires WorkerOk(s.store, s.published, s.worker)
    ensures WorkerOk(CancelRun(s, run, now).store, s.published, s.worker)
  {
    if run in s.store.jobs && !Terminal(s.store.jobs[run].status) {
      var u := CancelUpdate(s.store.jobs[run]);
      UpdatePatches(s.store, run, u, now);
      SameRunningKeepsWorker(s.store, UpdateJob(s.store, run, u, now).value, s.published, s.worker, run);
    }
  }

  lemma ClaimKeepsWorker(s: System, now: int)
    requires WorkerOk(s.store, s.published, s.worker) && QueueClean(s.store)
    ensures var t := ClaimStep(s, now); WorkerOk(t.store, t.published, t.worker)
  {
    if s.worker.Claiming? && s.worker.queue != [] {
      var run := s.worker.queue[0];
      assert run in s.worker.queue;
      if s.store.jobs[run].status == Queued {
        UpdatePatches(s.store, run, NO_UPDATE.(status := Some(Running)), now);
      }
    }
  }

  /** Settling the running job meets no conflict and leaves nothing running. */
  lemma SettleKeepsWorker(s: System, run: Id, u: Update, now: int)
    requires s.worker.Executing? && s.worker.run == run && WorkerOk(s.store, s.published, s.worker)
    requires u.cancel.None? && u.status.Some? && Terminal(u.status.value)
    ensures UpdateJob(s.store, run, u, now).Ok?
    ensures NoneRunning(UpdateJob(s.store, run, u, now).value)
  {
  }

  lemma FailKeepsWorker(s: System, run: Id, message: string, now: int)
    requires s.worker.Executing? && s.worker.run == run && WorkerOk(s.store, s.published, s.worker)
    ensures var t := FailJob(s, run, message, now); WorkerOk(t.store, t.published, t.worker)
  {
    var text := if |message| > 1000 then message[..1000] else message;
    SettleKeepsWorker(s, run, NO_UPDATE.(status := Some(Failed), error := Some(text)), now);
  }

  lemma EnterKeepsWorker(s: System, now: int, cfg: Config)
    requires s.worker.Executing? && s.worker.phase.Enter? && WorkerOk(s.store, s.published, s.worker)
    ensures var t := ExecuteStep(s, Raises(""), now, cfg); WorkerOk(t.store, t.published, t.worker)
  {
    UpdatePatches(s.store, s.worker.run, NO_UPDATE.(stage := Some(s.worker.phase.stage)), now);
  }

  lemma WorkKeepsWorker(s: System, outcome: Outcome, now: int, cfg: Config)
    requires s.worker.Executing? && s.worker.phase.Work? && WorkerOk(s.store, s.published, s.worker)
    ensures var t := ExecuteStep(s, outcome, now, cfg); WorkerOk(t.store, t.published, t.worker)
  {
    var Executing(run, phase, out) := s.worker;
    if phase.stage == Publication {
      FailKeepsWorker(s, run, "report cannot be published", now);
    } else if outcome.Raises? {
      FailKeepsWorker(s, run, outcome.message, now);
    } else if phase.stage == ReportRendering {
      FailKeepsWorker(s, run, "HTML and PDF artifacts are required", now);
      FailKeepsWorker(s, run, "HTML artifact exceeds limit", now);
      FailKeepsWorker(s, run, "PDF artifact exceeds limit", now);
    }
  }

  lemma WriteKeepsWorker(s: System, now: int, cfg: Config)
    requires s.worker.Executing? && s.worker.phase.Write? && WorkerOk(s.store, s.published, s.worker)
    ensures var t := ExecuteStep(s, Raises(""), now, cfg); WorkerOk(t.store, t.published, t.worker)
  {
    var Executing(run, phase, out) := s.worker;
    if WriteArtifact(s.store, run, phase.name, Content(out, phase.name)).Err? {
      FailKeepsWorker(s, run, "artifact cannot be stored", now);
    }
  }

  /** The pipeline never raises out of the worker: every status update it makes succeeds. */
  lemma ExecuteKeepsWorker(s: System, outcome: Outcome, now: int, cfg: Config)
    requires WorkerOk(s.store, s.published, s.worker)
    ensures var t := ExecuteStep(s, outcome, now, cfg); WorkerOk(t.store, t.published, t.worker)
  {
    if s.worker.Executing? {
      var Executing(run, phase, out) := s.worker;
      match phase
      case Begin =>
      case Check(_) => SettleKeepsWorker(s, run, NO_UPDATE.(status := Some(Cancelled)), now);
      case Enter(_) => EnterKeepsWorker(s, now, cfg);
      case Work(_) => WorkKeepsWorker(s, outcome, now, cfg);
      case Write(_) => WriteKeepsWorker(s, now, cfg);
      case Finish => SettleKeepsWorker(s, run, COMPLETION, now);
    }
  }

  // ---------- Everything published stays accounted for ----------

  /** Sources survive a move of the store: they are completed, or about to be. */
  lemma MoveKeepsTraced(st: Store, after: Store, published: map<Id, Bytes>, worker: WorkerState, next: WorkerState)
    requires PublishedTraced(st, published, worker) && Moved(st, after)
    requires forall run :: Wrote(st, after, run) ==> !Finishing(worker, run)
    requires forall run :: Finishing(worker, run) ==>
               Finishing(next, run) || (run in after.jobs && after.jobs[run].status == Completed)
    ensures PublishedTraced(after, published, next)
  {
    forall caseId | caseId in published ensures exists run :: Source(after, published, next, caseId, run) {
      var run :| Source(st, published, worker, caseId, run);
      assert ReadArtifact(st, run, ReportJson) == Some(published[caseId]);
      assert Source(after, published, next, caseId, run);
    }
  }

  /** The last step of the pipeline completes the job. */
  lemma FinishCompletes(s: System, outcome: Outcome, now: int, cfg: Config)
    requires WorkerOk(s.store, s.published, s.worker) && s.worker.Executing? && s.worker.phase == Finish
    ensures var t := ExecuteStep(s, outcome, now, cfg);
            && t.published == s.published && t.worker == Idle
            && s.worker.run in t.store.jobs
            && t.store.jobs[s.worker.run] == Patch(s.store.jobs[s.worker.run], COMPLETION, now)
  {
  }

  lemma FailKeepsCatalog(s: System, run: Id, message: string, now: int)
    ensures FailJob(s, run, message, now).published == s.published
    ensures FailJob(s, run, message, now).worker in {Idle, Dead}
  {
  }

  /** Of all steps, only a successful publication changes the catalog, and then the job only has to finish. */
  lemma OnlyPublicationPublishes(s: System, outcome: Outcome, now: int, cfg: Config)
    requires WorkerOk(s.store, s.published, s.worker) && s.worker.Executing? && s.worker.phase != Finish
    ensures var t := ExecuteStep(s, outcome, now, cfg);
            var run := s.worker.run;
            if t.worker.Executing? && t.worker.phase == Finish then
              && s.worker.phase == Work(Publication)
              && t == s.(published := s.published[s.store.jobs[run].caseId := s.worker.out.json],
                         worker := Executing(run, Finish, s.worker.out))
            else t.published == s.published
  {
    var Executing(run, phase, out) := s.worker;
    if phase.Work? {
      FailKeepsCatalog(s, run, "report cannot be published", now);
      if outcome.Raises? {
        FailKeepsCatalog(s, run, outcome.message, now);
      }
      FailKeepsCatalog(s, run, "HTML and PDF artifacts are required", now);
      FailKeepsCatalog(s, run, "HTML artifact exceeds limit", now);
      FailKeepsCatalog(s, run, "PDF artifact exceeds limit", now);
    } else if phase.Write? {
      FailKeepsCatalog(s, run, "artifact cannot be stored", now);
    }
  }

  lemma ExecuteKeepsTraced(s: System, outcome: Outcome, now: int, cfg: Config)
    requires WorkerOk(s.store, s.published, s.worker) && PublishedTraced(s.store, s.published, s.worker)
    requires s.worker.Executing?
    ensures var t := ExecuteStep(s, outcome, now, cfg); PublishedTraced(t.store, t.published, t.worker)
  {
    var Executing(run, phase, out) := s.worker;
    var t := ExecuteStep(s, outcome, now, cfg);
    ExecuteMoves(s, outcome, now, cfg);
    if phase == Finish {
      FinishCompletes(s, outcome, now, cfg);
      MoveKeepsTraced(s.store, t.store, s.published, s.worker, t.worker);
    } else {
      OnlyPublicationPublishes(s, outcome, now, cfg);
      if t.worker.Executing? && t.worker.phase == Finish {
        PublishKeepsTraced(s.store, s.published, t.published, run, s.worker, out);
      } else {
        MoveKeepsTraced(s.store, t.store, s.published, s.worker, t.worker);
      }
    }
  }

  /** Publishing makes the running job the source of its own case and leaves every other source in place. */
  lemma PublishKeepsTraced(st: Store, published: map<Id, Bytes>, next: map<Id, Bytes>,
                           run: Id, worker: WorkerState, out: Rendered)
    requires PublishedTraced(st, published, worker) && worker.Executing? && worker.phase != Finish
    requires run in st.jobs && HasArtifact(st, run, ReportJson, out.json)
    requires next == published[st.jobs[run].caseId := out.json]
    ensures PublishedTraced(st, next, Executing(run, Finish, out))
  {
    var after := Executing(run, Finish, out);
    forall c | c in next ensures exists r :: Source(st, next, after, c, r) {
      if c == st.jobs[run].caseId {
        assert Source(st, next, after, c, run);
      } else {
        var r :| Source(st, published, worker, c, r);
        assert Source(st, next, after, c, r);
      }
    }
  }

  // ---------- Intake keeps the invariant ----------

  /** A new upload takes the next serial. */
  lemma StageConserves(quarantine: map<Id, Upload>, captures: map<Id, Upload>, staged: nat, aborted: set<nat>,
                       id: Id, upload: Upload)
    requires UploadsConserved(quarantine, captures, staged, aborted) && id !in quarantine && upload.serial == staged
    ensures UploadsConserved(quarantine[id := upload], captures, staged + 1, aborted)
  {
    var after := quarantine[id := upload];
    forall n: nat ensures Quarantined(after, n) <==> n == staged || Quarantined(quarantine, n) {
      if n == staged {
        assert id in after && after[id].serial == n;
      } else if Quarantined(quarantine, n) {
        var u :| u in quarantine && quarantine[u].serial == n;
        assert u in after && after[u].serial == n;
      }
    }
  }

  /** Aborting moves one serial from quarantine to the aborted ones. */
  lemma AbortConserves(quarantine: map<Id, Upload>, captures: map<Id, Upload>, staged: nat, aborted: set<nat>, id: Id)
    requires UploadsConserved(quarantine, captures, staged, aborted) && quarantine.Keys == {id}
    ensures UploadsConserved(quarantine - {id}, captures, staged, aborted + {quarantine[id].serial})
  {
    assert Quarantined(quarantine, quarantine[id].serial);
    forall n: nat | Quarantined(quarantine, n) ensures n == quarantine[id].serial {
      var u :| u in quarantine && quarantine[u].serial == n;
      assert u in quarantine.Keys;
    }
  }

  /** Committing moves one serial from quarantine to the captures. */
  lemma CommitConserves(quarantine: map<Id, Upload>, captures: map<Id, Upload>, staged: nat, aborted: set<nat>,
                        id: Id, run: Id)
    requires UploadsConserved(quarantine, captures, staged, aborted) && quarantine.Keys == {id} && run !in captures
    ensures UploadsConserved(quarantine - {id}, captures[run := quarantine[id]], staged, aborted)
  {
    var serial := quarantine[id].serial;
    var after := captures[run := quarantine[id]];
    assert Quarantined(quarantine, serial);
    forall n: nat | Quarantined(quarantine, n) ensures n == serial {
      var u :| u in quarantine && quarantine[u].serial == n;
      assert u in quarantine.Keys;
    }
    forall n: nat ensures Captured(after, n) <==> n == serial || Captured(captures, n) {
      if n == serial {
        assert run in after && after[run].serial == n;
      } else if Captured(captures, n) {
        var r :| r in captures && captures[r].serial == n;
        assert r in after && after[r].serial == n;
      }
    }
    assert !Captured(captures, serial);
    forall r | r in captures ensures captures[r].serial != serial {
      assert Captured(captures, captures[r].serial);
    }
  }

  /** A change of the quarantine alone. */
  lemma QuarantineOnly(st: Store, after: Store, published: map<Id, Bytes>, worker: WorkerState)
    requires after == st.(quarantine := after.quarantine)
    ensures CapturesMatch(st) ==> CapturesMatch(after)
    ensures Unique(st) ==> Unique(after)
    ensures QueueClean(st) ==> QueueClean(after)
    ensures CompletedStored(st) ==> CompletedStored(after)
    ensures WorkerOk(st, published, worker) ==> WorkerOk(after, published, worker)
  {
  }

  lemma QuarantineKeepsTraced(st: Store, after: Store, published: map<Id, Bytes>, worker: WorkerState)
    requires after == st.(quarantine := after.quarantine) && PublishedTraced(st, published, worker)
    ensures PublishedTraced(after, published, worker)
  {
    forall caseId | caseId in published ensures exists run :: Source(after, published, worker, caseId, run) {
      var run :| Source(st, published, worker, caseId, run);
      assert Source(after, published, worker, caseId, run);
    }
  }

  lemma StageKeepsStore(
    st: Store, staged: nat, aborted: set<nat>, id: Id, upload: Upload, request: Request, cfg: Config)
    requires StoreInv(st, Free, staged, aborted, cfg) && upload.serial == staged
    ensures StoreInv(st.(quarantine := st.quarantine[id := upload]), Staged(id, request), staged + 1, aborted, cfg)
  {
    var after := st.(quarantine := st.quarantine[id := upload]);
    QuarantineOnly(st, after, map[], Idle);
    StageConserves(st.quarantine, st.captures, staged, aborted, id, upload);
    assert after.quarantine.Keys == {id};
  }

  lemma StageKeepsInv(s: System, id: Id, sha: string, header: Bytes, request: Request, cfg: Config)
    requires Inv(s, cfg)
    ensures Inv(StageUpload(s, id, sha, header, request), cfg)
  {
    if StageUpload(s, id, sha, header, request) != s {
      var after := s.store.(quarantine := s.store.quarantine[id := Upload(s.staged, sha, header)]);
      QuarantineOnly(s.store, after, s.published, s.worker);
      QuarantineKeepsTraced(s.store, after, s.published, s.worker);
      StageKeepsStore(s.store, s.staged, s.aborted, id, Upload(s.staged, sha, header), request, cfg);
    }
  }

  lemma AbortKeepsInv(s: System, cfg: Config)
    requires Inv(s, cfg) && !s.intake.Free?
    ensures Inv(Abort(s, s.intake.upload), cfg)
  {
    var t := Abort(s, s.intake.upload);
    QuarantineOnly(s.store, t.store, s.published, s.worker);
    QuarantineKeepsTraced(s.store, t.store, s.published, s.worker);
    AbortConserves(s.store.quarantine, s.store.captures, s.staged, s.aborted, s.intake.upload);
    assert s.intake.upload in s.store.quarantine;
    assert t.store.quarantine.Keys == {};
  }

  lemma CommittedUnique(st: Store, after: Store, run: Id, job: Job)
    requires Unique(st) && run !in st.jobs && after.jobs == st.jobs[run := job]
    requires !HasDuplicate(st, KeyOf(job))
    ensures Unique(after)
  {
    forall a | a in st.jobs && Active(st.jobs[a]) ensures KeyOf(st.jobs[a]) != KeyOf(job) {
      assert !IsDuplicate(st, KeyOf(job), a);
    }
  }

  lemma CommittedKeepsWorker(st: Store, after: Store, published: map<Id, Bytes>, worker: WorkerState, run: Id, job: Job)
    requires run !in st.jobs && job.status == Queued
    requires after.jobs == st.jobs[run := job] && after.artifacts == st.artifacts
    ensures WorkerOk(st, published, worker) ==> WorkerOk(after, published, worker)
    ensures CompletedStored(st) ==> CompletedStored(after)
  {
  }

  lemma CommittedKeepsTraced(st: Store, after: Store, published: map<Id, Bytes>, worker: WorkerState, run: Id, job: Job)
    requires run !in st.jobs && PublishedTraced(st, published, worker)
    requires after.jobs == st.jobs[run := job] && after.artifacts == st.artifacts
    ensures PublishedTraced(after, published, worker)
  {
    forall caseId | caseId in published ensures exists r :: Source(after, published, worker, caseId, r) {
      var r :| Source(st, published, worker, caseId, r);
      assert Source(after, published, worker, caseId, r);
    }
  }

  lemma CommittedRecords(st: Store, after: Store, run: Id, job: Job, upload: Upload)
    requires run !in st.jobs && CapturesMatch(st) && QueueClean(st)
    requires job.status == Queued && !job.cancelRequested && job.sha == upload.sha
    requires after.jobs == st.jobs[run := job] && after.captures == st.captures[run := upload]
    requires after.flags == st.flags
    ensures CapturesMatch(after) && QueueClean(after) && |after.jobs| == |st.jobs| + 1
  {
    UpdateKeys(st.jobs, run, job);
    UpdateKeys(st.captures, run, upload);
  }

  lemma CommittedKeepsStore(st: Store, intake: IntakeState, staged: nat, aborted: set<nat>, after: Store,
                            run: Id, job: Job, cfg: Config)
    requires StoreInv(st, intake, staged, aborted, cfg) && intake.Cleared?
    requires run !in st.jobs && |st.jobs| < cfg.maxJobs && CompletedStored(after)
    requires job.status == Queued && !job.cancelRequested
    requires KeyOf(job) == RequestKey(st, intake.upload, intake.request)
    requires after == st.(jobs := st.jobs[run := job],
                          captures := st.captures[run := st.quarantine[intake.upload]],
                          quarantine := st.quarantine - {intake.upload})
    ensures StoreInv(after, Free, staged, aborted, cfg)
  {
    CommittedUnique(st, after, run, job);
    CommitConserves(st.quarantine, st.captures, staged, aborted, intake.upload, run);
    CommittedRecords(st, after, run, job, st.quarantine[intake.upload]);
    assert after.quarantine.Keys == {};
  }

  /** The store after moving the cleared upload into a new job. */
  function CommittedStore(st: Store, upload: Id, run: Id, job: Job): Store
    requires upload in st.quarantine
  {
    st.(jobs := st.jobs[run := job],
        captures := st.captures[run := st.quarantine[upload]],
        quarantine := st.quarantine - {upload})
  }

  lemma CommitSucceeds(s: System, run: Id, caseId: Id, now: int, cfg: Config)
    requires Inv(s, cfg) && s.intake.Cleared? && s.intake.upload in s.store.quarantine
    requires run !in s.store.jobs && |s.store.jobs| < cfg.maxJobs
    ensures var job := NewJob(RequestKey(s.store, s.intake.upload, s.intake.request), s.intake.request, caseId, now);
            Inv(s.(store := CommittedStore(s.store, s.intake.upload, run, job), intake := Free), cfg)
  {
    var job := NewJob(RequestKey(s.store, s.intake.upload, s.intake.request), s.intake.request, caseId, now);
    var after := CommittedStore(s.store, s.intake.upload, run, job);
    CommittedKeepsWorker(s.store, after, s.published, s.worker, run, job);
    CommittedKeepsTraced(s.store, after, s.published, s.worker, run, job);
    CommittedKeepsStore(s.store, s.intake, s.staged, s.aborted, after, run, job, cfg);
  }

  /** An intake either commits a fresh job within the quota, or aborts its upload. */
  lemma CommitShape(s: System, run: Id, caseId: Option<Id>, fits: bool, now: int, cfg: Config)
    requires s.intake.Cleared?
    ensures var t := CommitUpload(s, run, caseId, fits, now, cfg);
            || t == Abort(s, s.intake.upload)
            || (&& caseId.Some? && s.intake.upload in s.store.quarantine
                && run !in s.store.jobs && |s.store.jobs| < cfg.maxJobs
                && var key := RequestKey(s.store, s.intake.upload, s.intake.request);
                   var job := NewJob(key, s.intake.request, caseId.value, now);
                   t == s.(store := CommittedStore(s.store, s.intake.upload, run, job), intake := Free))
  {
  }

  lemma CommitKeepsInv(s: System, run: Id, caseId: Option<Id>, fits: bool, now: int, cfg: Config)
    requires Inv(s, cfg) && s.intake.Cleared?
    ensures Inv(CommitUpload(s, run, caseId, fits, now, cfg), cfg)
  {
    CommitShape(s, run, caseId, fits, now, cfg);
    if CommitUpload(s, run, caseId, fits, now, cfg) == Abort(s, s.intake.upload) {
      AbortKeepsInv(s, cfg);
    } else {
      CommitSucceeds(s, run, caseId.value, now, cfg);
    }
  }

  lemma IntakeAdvances(s: System, intake: IntakeState, cfg: Config)
    requires Inv(s, cfg) && !s.intake.Free? && !intake.Free? && intake.upload == s.intake.upload
    requires intake.Cleared? ==> intake.upload in s.store.quarantine &&
                                 !HasDuplicate(s.store, RequestKey(s.store, intake.upload, intake.request))
    ensures Inv(s.(intake := intake), cfg)
  {
  }

  lemma ValidateKeepsInv(s: System, cfg: Config)
    requires Inv(s, cfg)
    ensures Inv(ValidateUpload(s), cfg)
  {
    if s.intake.Staged? {
      if ValidateUpload(s) == Abort(s, s.intake.upload) {
        AbortKeepsInv(s, cfg);
      } else {
        IntakeAdvances(s, Checked(s.intake.upload, s.intake.request), cfg);
      }
    }
  }

  lemma DeduplicateKeepsInv(s: System, cfg: Config)
    requires Inv(s, cfg)
    ensures Inv(DeduplicateUpload(s), cfg)
  {
    if s.intake.Checked? {
      if DeduplicateUpload(s) == Abort(s, s.intake.upload) {
        AbortKeepsInv(s, cfg);
      } else {
        IntakeAdvances(s, Cleared(s.intake.upload, s.intake.request), cfg);
      }
    }
  }

  // ---------- Every action keeps the invariant ----------

  lemma CancelKeepsInv(s: System, run: Id, now: int, cfg: Config)
    requires Inv(s, cfg)
    ensures Inv(CancelRun(s, run, now), cfg)
  {
    var t := CancelRun(s, run, now);
    CancelMoves(s, run, now);
    MoveKeepsStore(s.store, t.store, s.intake, s.staged, s.aborted, cfg);
    CancelKeepsWorker(s, run, now);
    CancelKeepsTraced(s, run, now);
  }

  lemma CancelKeepsTraced(s: System, run: Id, now: int)
    requires PublishedTraced(s.store, s.published, s.worker)
    ensures PublishedTraced(CancelRun(s, run, now).store, s.published, s.worker)
  {
    if run in s.store.jobs && !Terminal(s.store.jobs[run].status) {
      var u := CancelUpdate(s.store.jobs[run]);
      var after := UpdateJob(s.store, run, u, now).value;
      forall c | c in s.published ensures exists r :: Source(after, s.published, s.worker, c, r) {
        var r :| Source(s.store, s.published, s.worker, c, r);
        assert Source(after, s.published, s.worker, c, r);
      }
    }
  }

  lemma ClaimKeepsTraced(s: System, now: int)
    requires WorkerOk(s.store, s.published, s.worker) && PublishedTraced(s.store, s.published, s.worker)
    requires s.worker.Claiming? || s.worker.Sweeping?
    ensures PublishedTraced(ClaimStep(s, now).store, s.published, ClaimStep(s, now).worker)
  {
    ClaimMoves(s, now);
    MoveKeepsTraced(s.store, ClaimStep(s, now).store, s.published, s.worker, ClaimStep(s, now).worker);
  }

  lemma ClaimKeepsStore(s: System, now: int, cfg: Config)
    requires WorkerOk(s.store, s.published, s.worker)
    requires StoreInv(s.store, s.intake, s.staged, s.aborted, cfg)
    ensures StoreInv(ClaimStep(s, now).store, s.intake, s.staged, s.aborted, cfg)
  {
    ClaimMoves(s, now);
    MoveKeepsStore(s.store, ClaimStep(s, now).store, s.intake, s.staged, s.aborted, cfg);
  }

  lemma ClaimKeepsOthers(s: System, now: int)
    ensures var t := ClaimStep(s, now); t == s.(store := t.store, worker := t.worker)
  {
  }

  lemma ClaimKeepsInv(s: System, now: int, cfg: Config)
    requires Inv(s, cfg) && (s.worker.Claiming? || s.worker.Sweeping?)
    ensures Inv(ClaimStep(s, now), cfg)
  {
    ClaimKeepsOthers(s, now);
    ClaimKeepsStore(s, now, cfg);
    ClaimKeepsWorker(s, now);
    ClaimKeepsTraced(s, now);
  }

  lemma BeginClaimKeepsInv(s: System, queue: seq<Id>, cfg: Config)
    requires Inv(s, cfg) && s.worker.Idle? && IsClaimQueue(s.store, queue)
    ensures Inv(s.(worker := Claiming(queue)), cfg)
  {
    MoveKeepsTraced(s.store, s.store, s.published, s.worker, Claiming(queue));
  }

  lemma ExecuteKeepsInv(s: System, outcome: Outcome, now: int, cfg: Config)
    requires Inv(s, cfg) && s.worker.Executing?
    ensures Inv(ExecuteStep(s, outcome, now, cfg), cfg)
  {
    var t := ExecuteStep(s, outcome, now, cfg);
    ExecuteMoves(s, outcome, now, cfg);
    ExecuteKeepsOthers(s, outcome, now, cfg);
    MoveKeepsStore(s.store, t.store, s.intake, s.staged, s.aborted, cfg);
    ExecuteKeepsWorker(s, outcome, now, cfg);
    ExecuteKeepsTraced(s, outcome, now, cfg);
  }

  predicate SameIntake(s: System, t: System)
  {
    t.intake == s.intake && t.staged == s.staged && t.aborted == s.aborted
  }

  lemma WorkKeepsOthers(s: System, run: Id, stage: Stage, out: Rendered, outcome: Outcome, now: int, cfg: Config)
    ensures SameIntake(s, WorkStep(s, run, stage, out, outcome, now, cfg))
  {
  }

  lemma ExecuteKeepsOthers(s: System, outcome: Outcome, now: int, cfg: Config)
    ensures SameIntake(s, ExecuteStep(s, outcome, now, cfg))
  {
    if s.worker.Executing? && s.worker.phase.Work? {
      WorkKeepsOthers(s, s.worker.run, s.worker.phase.stage, s.worker.out, outcome, now, cfg);
    }
  }

  lemma IntakeKeepsInv(s: System, a: Action, cfg: Config)
    requires Inv(s, cfg) && (a.Stage? || a.Validate? || a.Deduplicate? || a.Commit?)
    ensures Inv(Apply(s, a, cfg), cfg)
  {
    match a
    case Stage(id, sha, header, request) => StageKeepsInv(s, id, sha, header, request, cfg);
    case Validate => ValidateKeepsInv(s, cfg);
    case Deduplicate => DeduplicateKeepsInv(s, cfg);
    case Commit(run, caseId, fits, now) =>
      if s.intake.Cleared? {
        CommitKeepsInv(s, run, caseId, fits, now, cfg);
      }
    case _ =>
  }

  lemma WorkerKeepsInv(s: System, a: Action, cfg: Config)
    requires Inv(s, cfg) && (a.BeginClaim? || a.Claim? || a.Execute?)
    ensures Inv(Apply(s, a, cfg), cfg)
  {
    match a
    case BeginClaim(queue) =>
      if s.worker.Idle? && IsClaimQueue(s.store, queue) {
        BeginClaimKeepsInv(s, queue, cfg);
      }
    case Claim(now) =>
      if s.worker.Claiming? || s.worker.Sweeping? {
        ClaimKeepsInv(s, now, cfg);
      }
    case Execute(outcome, now) =>
      if s.worker.Executing? {
        ExecuteKeepsInv(s, outcome, now, cfg);
      }
    case _ =>
  }

  lemma ApplyKeepsInv(s: System, a: Action, cfg: Config)
    requires Inv(s, cfg)
    ensures Inv(Apply(s, a, cfg), cfg)
  {
    if a.Cancel? {
      CancelKeepsInv(s, a.run, a.now, cfg);
    } else if a.Sweep? {
      assert Apply(s, a, cfg) == s;
    } else if a.BeginClaim? || a.Claim? || a.Execute? {
      WorkerKeepsInv(s, a, cfg);
    } else {
      IntakeKeepsInv(s, a, cfg);
    }
  }
}
