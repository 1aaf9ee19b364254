/** What single steps of the capture-job protocol do, in terms of statuses, fields, octets and sizes. */
module JobSteps {
  import opened Prelude
  import opened Jobs
  import opened JobProtocol

  /** The upload is deleted and the intake is over. */
  predicate IsAborted(s: System, t: System, upload: Id)
  {
    && t.intake == Free && upload !in t.store.quarantine && t.store.jobs == s.store.jobs
    && (upload in s.store.quarantine ==> s.store.quarantine[upload].serial in t.aborted)
  }

  // ---------- Intake ----------

  /** A capture passes when its first four octets are those of its format: PCAPNG, or PCAP in either byte order. */
  lemma CaptureMagic(s: System, upload: Id, request: Request, cfg: Config)
    requires s.intake == Staged(upload, request) && upload in s.store.quarantine
    ensures var t := Apply(s, Validate, cfg);
            var header := s.store.quarantine[upload].header;
            if |header| >= 4 &&
               (if request.format == "pcapng" then header[..4] == [10, 13, 13, 10]
                else || header[..4] == [161, 178, 195, 212] || header[..4] == [212, 195, 178, 161]
                     || header[..4] == [161, 178, 60, 77] || header[..4] == [77, 60, 178, 161])
            then t == s.(intake := Checked(upload, request))
            else IsAborted(s, t, upload)
  {
  }

  /** A queued, running or completed job of the same capture, profile and hostname ends the intake. */
  lemma DuplicateAborts(s: System, upload: Id, request: Request, cfg: Config)
    requires s.intake == Checked(upload, request) && upload in s.store.quarantine
    ensures var t := Apply(s, Deduplicate, cfg);
            var jobs := s.store.jobs;
            if forall run :: (run in jobs && jobs[run].sha == s.store.quarantine[upload].sha &&
                              jobs[run].profile == request.profile && jobs[run].hostname == request.hostname) ==>
                               jobs[run].status in {Failed, Cancelled}
            then t == s.(intake := Cleared(upload, request))
            else IsAborted(s, t, upload)
  {
    DuplicatesByStatus(s.store, RequestKey(s.store, upload, request));
  }

  /** A commit admits the upload as a queued job with these fields, or deletes it. */
  lemma CommitAdmits(s: System, upload: Id, request: Request, run: Id, caseId: Option<Id>, fits: bool, now: int,
                     cfg: Config)
    requires s.intake == Cleared(upload, request) && upload in s.store.quarantine
    ensures var t := Apply(s, Commit(run, caseId, fits, now), cfg);
            if caseId.Some? && ValidId(upload) && ValidId(run) && |s.store.jobs| < cfg.maxJobs && fits &&
               run !in s.store.jobs
            then
              && t.store.jobs == s.store.jobs[run := Job(
                                   caseId.value, Queued, Intake, s.store.quarantine[upload].sha, request.filename,
                                   request.format, request.profile, request.hostname, now, now, None,
                                   Availability(false, false, false), false)]
              && t.store.captures == s.store.captures[run := s.store.quarantine[upload]]
              && t.store.quarantine == s.store.quarantine - {upload}
              && t.intake == Free && t.aborted == s.aborted
            else IsAborted(s, t, upload)
  {
  }

  // ---------- Cancel ----------

  /** A queued job is cancelled at once, a running one flagged; any other cancel does nothing. */
  lemma CancelMeans(s: System, run: Id, now: int, cfg: Config)
    ensures var t := Apply(s, Cancel(run, now), cfg);
            if run in s.store.jobs && s.store.jobs[run].status in {Queued, Running}
            then
              && t.store.jobs.Keys == s.store.jobs.Keys
              && (forall r :: r in s.store.jobs && r != run ==> t.store.jobs[r] == s.store.jobs[r])
              && t.store.jobs[run].status == (if s.store.jobs[run].status == Queued then Cancelled else Running)
              && t.store.jobs[run].cancelRequested && run in t.store.flags
              && t.store.artifacts == s.store.artifacts && t.published == s.published && t.worker == s.worker
            else t == s
  {
  }

  // ---------- Worker ----------

  /** At a check, a request in the record or in the flag file cancels the job; otherwise its next stage begins. */
  lemma CheckMeans(s: System, run: Id, stage: Stage, out: Rendered, outcome: Outcome, now: int, cfg: Config)
    requires s.worker == Executing(run, Check(stage), out)
    requires run in s.store.jobs && s.store.jobs[run].status == Running
    ensures var t := Apply(s, Execute(outcome, now), cfg);
            if s.store.jobs[run].cancelRequested || run in s.store.flags
            then t.worker == Idle && t.store.jobs[run].status == Cancelled && t.published == s.published
            else t == s.(worker := Executing(run, Enter(stage), out))
  {
  }

  /** A stage that raises fails the job, with at most a thousand characters of its message. */
  lemma RaiseFails(s: System, run: Id, stage: Stage, out: Rendered, message: string, now: int, cfg: Config)
    requires s.worker == Executing(run, Work(stage), out) && stage != Publication
    requires run in s.store.jobs && s.store.jobs[run].status == Running
    ensures var t := Apply(s, Execute(Raises(message), now), cfg);
            && t.worker == Idle && t.store.jobs[run].status == Failed
            && t.store.jobs[run].error == Some(if |message| > 1000 then message[..1000] else message)
            && t.published == s.published && t.store.artifacts == s.store.artifacts
  {
  }

  /** The stages follow each other in this order. */
  lemma StagesInOrder(s: System, run: Id, stage: Stage, out: Rendered, outcome: Outcome, now: int, cfg: Config)
    requires s.worker == Executing(run, Work(stage), out) && outcome.Returns?
    requires stage in {DeterministicAnalysis, PolicyScoring, MlAdvisory}
    ensures var t := Apply(s, Execute(outcome, now), cfg);
            && (stage == DeterministicAnalysis ==> t.worker == Executing(run, Check(PolicyScoring), out))
            && (stage == PolicyScoring ==> t.worker == Executing(run, Check(MlAdvisory), out))
            && (stage == MlAdvisory ==> t.worker == Executing(run, Check(ReportRendering), out))
            && t.store == s.store && t.published == s.published
  {
  }

  /** Rendering goes on to the artifacts iff both other formats are there and within 16 and 32 MiB. */
  lemma RenderingLimits(s: System, run: Id, out: Rendered, outcome: Outcome, now: int, cfg: Config)
    requires s.worker == Executing(run, Work(ReportRendering), out) && outcome.Returns?
    requires run in s.store.jobs && s.store.jobs[run].status == Running
    ensures var t := Apply(s, Execute(outcome, now), cfg);
            if outcome.html.Some? && outcome.pdf.Some? && |outcome.html.value| <= 16777216 &&
               |outcome.pdf.value| <= 33554432
            then t.worker == Executing(run, Write(ReportJson),
                                       Rendered(outcome.json, outcome.html.value, outcome.pdf.value))
            else t.worker == Idle && t.store.jobs[run].status == Failed
  {
  }

  /** A report over 8 MiB fails the job; a smaller one is stored under its run and name. */
  lemma ReportLimit(s: System, run: Id, out: Rendered, outcome: Outcome, now: int, cfg: Config)
    requires s.worker == Executing(run, Write(ReportJson), out)
    requires run in s.store.jobs && s.store.jobs[run].status == Running
    ensures var t := Apply(s, Execute(outcome, now), cfg);
            if |out.json| <= 8388608
            then && t.worker == Executing(run, Write(ReportHtml), out)
                 && t.store.artifacts == s.store.artifacts[(run, ReportJson) := out.json]
            else t.worker == Idle && t.store.jobs[run].status == Failed && t.store.artifacts == s.store.artifacts
  {
  }
}
