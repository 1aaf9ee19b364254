/**
 Job records and the job store, as values: every operation of `FilesystemJobStore` is a function from
 the stored state to the next one, or to the error it raises.
 */
module Jobs {
  import opened Prelude
  import opened Sorting

  datatype Status = Queued | Running | Completed | Failed | Cancelled

  datatype Stage = Intake | DeterministicAnalysis | PolicyScoring | MlAdvisory | ReportRendering | Publication

  datatype Availability = Availability(json: bool, html: bool, pdf: bool)

  datatype Job = Job(
    caseId: Id, status: Status, stage: Stage,
    sha: string, filename: string, format: string, profile: string, hostname: Option<string>,
    createdAt: int, updatedAt: int,
    error: Option<string>, artifacts: Availability, cancelRequested: bool)

  predicate Terminal(status: Status) { status in {Completed, Failed, Cancelled} }

  /** Jobs that a repeated upload is answered with. */
  predicate Active(job: Job) { job.status in {Queued, Running, Completed} }

  lemma ActiveOrEnded(status: Status)
    ensures status in {Queued, Running, Completed} <==> status !in {Failed, Cancelled}
    ensures status in {Queued, Running, Completed} <==> !Terminal(status) || status == Completed
  {
    match status
    case Queued =>
    case Running =>
    case Completed =>
    case Failed =>
    case Cancelled =>
  }

  /** What identifies an intake. */
  datatype Key = Key(sha: string, profile: string, hostname: Option<string>)

  function KeyOf(job: Job): Key { Key(job.sha, job.profile, job.hostname) }

  datatype ArtifactName = ReportJson | ReportHtml | ReportPdf

  const MAX_REPORT_BYTES := 8 * 1024 * 1024
  const MAX_HTML_BYTES := 16 * 1024 * 1024
  const MAX_PDF_BYTES := 32 * 1024 * 1024

  function ArtifactLimit(name: ArtifactName): nat
  {
    match name
    case ReportJson => MAX_REPORT_BYTES
    case ReportHtml => MAX_HTML_BYTES
    case ReportPdf => MAX_PDF_BYTES
  }

  /** A received capture; `serial` numbers uploads in the order they were staged. */
  datatype Upload = Upload(serial: nat, sha: string, header: Bytes)

  datatype Store = Store(
    jobs: map<Id, Job>,
    flags: set<Id>,
    captures: map<Id, Upload>,
    artifacts: map<(Id, ArtifactName), Bytes>,
    quarantine: map<Id, Upload>)

  datatype JobError = InvalidIdentifier | NotFound | Conflict | QuotaExceeded | StagedMissing | DuplicateRun | TooLarge

  // ---------- update_job ----------

  datatype Update = Update(
    status: Option<Status>, stage: Option<Stage>, error: Option<string>,
    artifacts: Option<Availability>, cancel: Option<bool>)

  const NO_UPDATE := Update(None, None, None, None, None)

  function OrElse<T>(option: Option<T>, default: T): T
  {
    match option
    case Some(value) => value
    case None => default
  }

  function Patch(job: Job, u: Update, now: int): Job
  {
    job.(updatedAt := now,
         status := OrElse(u.status, job.status),
         stage := OrElse(u.stage, job.stage),
         error := if u.error.Some? then u.error else job.error,
         artifacts := OrElse(u.artifacts, job.artifacts),
         cancelRequested := OrElse(u.cancel, job.cancelRequested))
  }

  function UpdateJob(st: Store, run: Id, u: Update, now: int): Result<Store, JobError>
  {
    if run !in st.jobs then Err(NotFound)
    else if u.status.Some? && Terminal(st.jobs[run].status) then Err(Conflict)
    else
      Ok(st.(jobs := st.jobs[run := Patch(st.jobs[run], u, now)],
             flags := match u.cancel
                      case None => st.flags
                      case Some(true) => st.flags + {run}
                      case Some(false) => st.flags - {run}))
  }

  // ---------- request_cancel, is_cancel_requested ----------

  function CancelUpdate(job: Job): Update
  {
    if job.status == Queued then NO_UPDATE.(status := Some(Cancelled), cancel := Some(true))
    else NO_UPDATE.(cancel := Some(true))
  }

  function RequestCancel(st: Store, run: Id, now: int): Result<Store, JobError>
  {
    if run !in st.jobs then Err(NotFound)
    else if Terminal(st.jobs[run].status) then Err(Conflict)
    else UpdateJob(st, run, CancelUpdate(st.jobs[run]), now)
  }

  predicate IsCancelRequested(st: Store, run: Id)
  {
    run in st.jobs && (st.jobs[run].cancelRequested || run in st.flags)
  }

  // ---------- commit_staged, find_duplicate, artifacts ----------

  /** `fits` is the outcome of the byte-quota test. */
  function CommitStaged(st: Store, upload: Id, run: Id, job: Job, maxJobs: nat, fits: bool): Result<Store, JobError>
  {
    if !ValidId(upload) || !ValidId(run) then Err(InvalidIdentifier)
    else if upload !in st.quarantine then Err(StagedMissing)
    else if |st.jobs| >= maxJobs then Err(QuotaExceeded)
    else if !fits then Err(QuotaExceeded)
    else if run in st.jobs then Err(DuplicateRun)
    else
      Ok(st.(jobs := st.jobs[run := job],
             captures := st.captures[run := st.quarantine[upload]],
             quarantine := st.quarantine - {upload}))
  }

  predicate IsDuplicate(st: Store, key: Key, run: Id)
  {
    run in st.jobs && Active(st.jobs[run]) && KeyOf(st.jobs[run]) == key
  }

  predicate HasDuplicate(st: Store, key: Key)
  {
    exists run :: run in st.jobs && IsDuplicate(st, key, run)
  }

  /** In terms of statuses: a key is free when every job that has it is failed or cancelled. */
  lemma DuplicatesByStatus(st: Store, key: Key)
    ensures !HasDuplicate(st, key) <==>
            forall run :: (run in st.jobs && st.jobs[run].sha == key.sha && st.jobs[run].profile == key.profile &&
                           st.jobs[run].hostname == key.hostname) ==> st.jobs[run].status in {Failed, Cancelled}
  {
    forall run | run in st.jobs
      ensures IsDuplicate(st, key, run) <==>
              && st.jobs[run].sha == key.sha && st.jobs[run].profile == key.profile
              && st.jobs[run].hostname == key.hostname && st.jobs[run].status !in {Failed, Cancelled}
    {
      ActiveOrEnded(st.jobs[run].status);
    }
  }

  function WriteArtifact(st: Store, run: Id, name: ArtifactName, bytes: Bytes): Result<Store, JobError>
  {
    if |bytes| > ArtifactLimit(name) then Err(TooLarge)
    else if run !in st.jobs then Err(NotFound)
    else Ok(st.(artifacts := st.artifacts[(run, name) := bytes]))
  }

  function ReadArtifact(st: Store, run: Id, name: ArtifactName): Option<Bytes>
  {
    if (run, name) in st.artifacts then Some(st.artifacts[(run, name)]) else None
  }

  // ---------- claim_next ----------

  predicate Claimable(job: Job) { job.status == Queued && !job.cancelRequested }

  /** Oldest first, then by run identifier; the newest duplicate is the last one in this order. */
  predicate NotNewer(jobs: map<Id, Job>, a: Id, b: Id)
  {
    && a in jobs && b in jobs
    && (jobs[a].createdAt < jobs[b].createdAt || (jobs[a].createdAt == jobs[b].createdAt && StrLe(a, b)))
  }

  /** `queue` is what `claim_next` iterates over: every claimable job once, oldest first. */
  ghost predicate IsClaimQueue(st: Store, queue: seq<Id>)
  {
    && (forall run :: run in queue <==> run in st.jobs && Claimable(st.jobs[run]))
    && (forall i, j :: 0 <= i < j < |queue| ==> queue[i] != queue[j] && NotNewer(st.jobs, queue[i], queue[j]))
  }
}
