# SecureMail, verified

SecureMail analyses captured mail traffic: it normalises Zeek and TShark evidence about SMTP, IMAP and POP3 sessions,
evaluates policy packs over it, publishes scored reports and keeps a history for anomaly scoring. This project models
the parts of it whose behaviour is hard to see from the code and proves what they promise, for all inputs and all runs.

| component | Dafny modules |
|---|---|
| DER nesting walker in front of the X.509 parser | `Der` |
| capture jobs: intake, cancel, worker, store | `Jobs`, `JobStore`, `JobProtocol`, `JobSteps`, `JobTheorems`, `JobProgress`, `CaptureService`, `ServiceRun` |
| report catalog, writer and reader | `ReportPaths`, `Catalog`, `OversizeCatalog` |
| STARTTLS and STLS analysers | `Upgrade`, `UpgradeStates`, `Starttls` |
| policy evaluation | `Evidence`, `RuleEngine`, `Citations`, `PolicyBatch`, `PolicyContexts`, `PolicyTheorems` |
| deduplication, scoring, coverage, risk | `Dedup`, `DedupTheorems`, `Posture`, `Risk` |
| evidence correlation | `EventMerge`, `FrameAttach` |
| anomaly scoring and its history | `Windows`, `Baselines`, `Refit`, `MlHistory` |
| shared: options, stable sorting, sort keys and flat maps | `Prelude`, `Sorting`, `Keys` |

`dafny verify dfyconfig.toml` checks everything.

How to read the main results:

* **Walker.** `Der.NestingDepth` is an exact recogniser of the definite-length TLV grammar of ITU-T X.690 sections
  8.1.2, 8.1.3 and 10.1 with at most four length octets: it is proved against a tree datatype and its encoder.
* **Jobs.** `JobProtocol.Apply` is the transition relation of intake, cancel route and worker; `JobTheorems` proves
  safety over every sequence of its actions; `CaptureService.Service` is the imperative object whose methods are proved
  to make exactly those transitions, over a `JobStore.FilesystemJobStore` and a `Catalog.Publisher`.
* **Upgrades.** `Upgrade` defines the outcome of a trace by predicates on positions (outstanding request, acceptance,
  violation, fallback); the three loops in `Starttls` are proved to return it, and to return what `UpgradeStates` says
  in each protocol's own reply codes, texts and commands.
* **Policy to risk.** `PolicyBatch.EvaluateBatch` and `Risk.ScoreFindings` are the two halves of the pipeline;
  `Risk.AnalysePolicy` composes them and states what a published risk score means.
* **Small definitions.** What the large theorems are stated in (tag octets, job statuses, paths, reply codes, evidence
  states, point tables, letters, thresholds) is settled by theorems of its own with the values written out: lemmas whose
  names end in `Means`, `Weighs` or `Labels`, and `JobSteps`, `UpgradeStates` and `PolicyContexts`.

## Assumptions

* `update_job`, `request_cancel` and `commit_staged` are atomic. The port promises only an atomic claim
  (src/securemail/ports/jobs.py:70) and the file-system store holds no lock, so the safety results rest on this.
* One worker (src/securemail/bootstrap.py:172); intakes are serialised with each other and interleave freely with
  cancels and worker steps. `claim_next` is split into its snapshot and one step per candidate.
* No I/O faults and no crashes: renames and writes succeed. Pipeline stages may still raise at any point.
* SHA-256 is a function of the joined text; where a result needs it to be collision-free the lemma says so
  (`Injective`), and where it needs parts without the joining bar it says so too.
* Unicode case mapping and white-space splitting, path lookup and value comparison of the policy engine, feature
  statistics, `sklearn` and the byte-quota test are parameters: the results hold for any of them.
* Times are integers or reals, floats are reals.

Where code and documentation differ, the model follows the code: docs/forensics/policy-evaluation.md lists when a
predicate is unusable without the case that its comparison is rejected for its operand types; the code counts that too.

## Findings

| promised | where it fails | exact condition |
|---|---|---|
| publishing touches only the target case and keeps the catalog valid | a catalog entry of another case names `<case>.report.json` (`Catalog.BorrowedNameBreaks`, `Catalog.CaseOneBreaks`): that case is overwritten, then two cases name one file and the reader refuses the catalog | `Catalog.PublicationExact`: no other entry resolves to that file (or, when the catalog is full and the publication fails after storing the file, the file held the same bytes already) |
| the same | the rewritten catalog text is over the reader's bound of one mebibyte, which the publisher does not test (`OversizeCatalog.OversizeExample`) | `Catalog.PublicationExact`: the size of the new text; publisher-made names keep within it for up to 2723 entries (`Catalog.GoodIsUndisturbed`), the default being 256 |
| an accepted cancel stops the job | a cancel between the last check and completion is accepted and recorded, and the job completes (`JobProgress.LateCancelExample`, in a run from the empty system) | `JobTheorems.PastCancelling`: `CancelInTimeWins` and `CancelTooLateLoses` are the two halves |
| a finding id determines its finding | rule ids and record keys that both hold bars (`PolicyTheorems.BarsCollide`) | `PolicyTheorems.FindingIdsDetermine` where either holds none |

## Model

| member | source | states |
|---|---|---|
| `Der.NestingDepth` | src/securemail/application/normalize_certificates.py:189-232 | Result in 0..cap+1; at most the cap iff the bytes are the encoding of a well-formed forest of at most that height, and then equal to its height |
| `Der.Walk` | src/securemail/application/normalize_certificates.py:192-230 | The loop with recursion, never reading past `end`, returns the capped height of what the range parses to |
| `Der.ScanHeader` | src/securemail/application/normalize_certificates.py:198-221 | Accepts exactly the tag and length octets of the grammar; rejects indefinite, reserved, overlong and overrunning lengths |
| `Der.ParseSound` | src/securemail/application/normalize_certificates.py:189-232 | What is recognised is well-formed and encodes back to the bytes |
| `Der.ParseComplete` | src/securemail/application/normalize_certificates.py:189-232 | Every encoded well-formed forest is recognised as itself |
| `Der.EncodeInjective` | src/securemail/application/normalize_certificates.py:189-232 | Two forests with the same octets are the same forest, so "the height of the bytes" is well defined |
| `Der.CertificateGate` | src/securemail/application/normalize_certificates.py:271-283 | The X.509 parser is reached iff size and nesting are within limits |
| `Der.SequenceAddsALevel` | src/securemail/application/normalize_certificates.py:223-229 | Octet 48 around any well-formed forest of under 128 octets adds one level; among siblings the higher one counts |
| `Der.OctetStringAddsNone` | src/securemail/application/normalize_certificates.py:223-229 | Octet 4 around any octets adds none |
| `Der.NestedExample` | src/securemail/application/normalize_certificates.py:189-232 | The walker itself gives 2 for two nested SEQUENCEs and 0 for the same octets in an OCTET STRING |
| `Der.LengthForms` | src/securemail/application/normalize_certificates.py:208-219 | Each of the five admissible length forms announces exactly the number it spells |
| `Der.OtherLengths` | src/securemail/application/normalize_certificates.py:208-219 | Any other length octets announce nothing |
| `Der.TagForms` | src/securemail/application/normalize_certificates.py:200-205 | Eight leading octets take further octets up to one below 128, all others stand alone |
| `JobProtocol.ApplyKeepsInv` | src/securemail/application/analysis_workflow.py:57-225 | Every action of intake, cancel and worker keeps the joint invariant of store, catalog, intake and worker |
| `JobTheorems.ReachableInv` | src/securemail/application/analysis_workflow.py:57-225 | The invariant holds after any sequence of actions |
| `JobTheorems.OneActiveJobPerKey` | src/securemail/adapters/persistence/job_store.py:148-166 | In every reachable state, of two different jobs with equal hash, profile and hostname one is failed or cancelled |
| `JobTheorems.JobQuotaHolds` | src/securemail/adapters/persistence/job_store.py:116-119 | The number of jobs never exceeds `max_jobs` |
| `JobTheorems.EveryUploadIsSettled` | src/securemail/application/capture_intake.py:120-162 | Between intakes every staged upload is aborted or the capture of exactly one job of the same hash |
| `JobTheorems.NoCancelledJobIsQueued` | src/securemail/adapters/persistence/job_store.py:192-199 | "Queued with cancel requested" is unreachable, so the sweep finds nothing |
| `JobTheorems.WorkerNeverDies` | src/securemail/application/analysis_workflow.py:77-95 | None of the worker's own status updates ever raises |
| `JobTheorems.TerminalIsForever` | src/securemail/adapters/persistence/job_store.py:211-218 | A completed, failed or cancelled record and its artifacts never change again, in any continuation |
| `JobTheorems.CancelBeatsClaim` | src/securemail/adapters/persistence/job_store.py:180-191 | A cancel between the snapshot and the update of `claim_next` leaves the job cancelled for ever |
| `JobTheorems.CompletionPublishes` | src/securemail/application/analysis_workflow.py:178-192 | When a job becomes completed its three artifacts are stored and its case reads as its `report.json` bytes |
| `JobTheorems.OnlyCompletingJobsPublish` | src/securemail/application/analysis_workflow.py:184-192 | A step that changes the catalog changes one case to the executing job's `report.json`, and that job is never failed or cancelled afterwards |
| `JobTheorems.CatalogIsTraced` | src/securemail/application/analysis_workflow.py:184-192 | Whatever the catalog returns is the report of a completed or just completing job of that case |
| `JobTheorems.CancelInTimeWins` | src/securemail/application/analysis_workflow.py:113-183 | A cancel accepted before the last check never ends in completed |
| `JobTheorems.CancelTooLateLoses` | src/securemail/application/analysis_workflow.py:180-192 | The exact other half: past the last check a cancel is accepted, and every continuation with three more worker steps, whatever else happens in between, completes the job all the same |
| `JobTheorems.ClaimedJobsEnd` | src/securemail/application/analysis_workflow.py:57-192 | Progress: from every reachable state with an executing job, every continuation with at most 22 worker steps (20 from its start), interleaved with anything, leaves that job completed, failed or cancelled |
| `JobProgress.GoodJobsComplete` | src/securemail/application/analysis_workflow.py:57-192 | And which way: with no cancel of that job, room in the catalog and stages that return artifacts within limits, every such continuation completes it |
| `JobProgress.LateIsReachable` | src/securemail/application/analysis_workflow.py:113-186 | Under every configuration with room for a job and a report, a run of intake, claim and seventeen good steps reaches the point past the last cancel check |
| `JobProgress.LateCancelExample` | src/securemail/application/analysis_workflow.py:180-192 | In that run a cancel is accepted and the job is completed three worker steps later |
| `JobProgress.CompletionExample` | src/securemail/application/analysis_workflow.py:57-192 | Without the cancel the same run completes its job |
| `JobSteps.CaptureMagic` | src/securemail/application/capture_intake.py:82-91 | An upload passes iff its first four octets are the PCAPNG magic or, for PCAP, one of the four PCAP magics; otherwise it is aborted |
| `JobSteps.DuplicateAborts` | src/securemail/application/capture_intake.py:127-136 | It is aborted iff some queued, running or completed job has its hash, profile and hostname |
| `JobSteps.CommitAdmits` | src/securemail/application/capture_intake.py:137-162 | A commit stores a queued job with exactly the given fields and the upload as its capture, or aborts, by conditions written out |
| `JobSteps.CancelMeans` | src/securemail/adapters/persistence/job_store.py:239-251 | A queued job is cancelled, a running one flagged in record and file, anything else left alone |
| `JobSteps.CheckMeans` | src/securemail/application/analysis_workflow.py:114-115 | A request in the record or in the flag file cancels the job at a check, and nothing else does |
| `JobSteps.RaiseFails` | src/securemail/application/analysis_workflow.py:79-96 | A stage that raises fails the job with at most a thousand characters, touching neither artifacts nor catalog |
| `JobSteps.StagesInOrder` | src/securemail/application/analysis_workflow.py:117-162 | Analysis, policy scoring, advisory and rendering follow each other, with a check before each |
| `JobSteps.RenderingLimits` | src/securemail/application/analysis_workflow.py:171-177 | Rendering goes on iff HTML and PDF exist and are within 16 and 32 MiB |
| `JobSteps.ReportLimit` | src/securemail/application/analysis_workflow.py:178 | A report is stored iff it is within 8 MiB, else the job fails |
| `JobStore.FilesystemJobStore.CommitStaged` | src/securemail/adapters/persistence/job_store.py:109-140 | New state or error as the store function says, with every error case and nothing changed on error |
| `JobStore.FilesystemJobStore.UpdateJob` | src/securemail/adapters/persistence/job_store.py:201-237 | Field by field update with the conflict test, flag file included |
| `JobStore.FilesystemJobStore.RequestCancel` | src/securemail/adapters/persistence/job_store.py:239-251 | Cancels a queued job at once, flags a running one, conflicts on a terminal one |
| `JobStore.FilesystemJobStore.FindDuplicate` | src/securemail/adapters/persistence/job_store.py:148-166 | None iff every job of that hash, profile and hostname is failed or cancelled; otherwise the newest of those queued, running or completed |
| `JobStore.FilesystemJobStore.ClaimQueue` | src/securemail/adapters/persistence/job_store.py:180-186 | Every queued job without a cancel request once, oldest first |
| `JobStore.FilesystemJobStore.WriteArtifact` | src/securemail/adapters/persistence/job_store.py:269-281 | Stores the bytes under job and name, or refuses an artifact over 8, 16 or 32 MiB, or a missing job |
| `CaptureService.Service.Stage` | src/securemail/application/capture_intake.py:120-125 | Is the staging step of the protocol |
| `CaptureService.Service.Validate` | src/securemail/application/capture_intake.py:82-91 | Is the magic check of the protocol, aborting on mismatch |
| `CaptureService.Service.Deduplicate` | src/securemail/application/capture_intake.py:127-136 | Is the duplicate step of the protocol: the intake goes on iff every job of its hash, profile and hostname is failed or cancelled, and is aborted otherwise |
| `CaptureService.Service.Commit` | src/securemail/application/capture_intake.py:137-162 | Is the commit step of the protocol; an upload that is not committed is aborted |
| `CaptureService.Service.Cancel` | src/securemail/adapters/persistence/job_store.py:239-251 | Is the cancel action, accepted iff the job is queued or running |
| `CaptureService.Service.Claim` | src/securemail/adapters/persistence/job_store.py:180-199 | Is one claim step: run the candidate, or skip it on conflict |
| `CaptureService.Service.Execute` | src/securemail/application/analysis_workflow.py:57-192 | Is one step of the staged pipeline with its checks, failures, writes, publication and completion on any readable report root: store, intake and worker always, the catalog whenever the publication at hand disturbs no other case; otherwise the report root is still exactly what the publisher leaves. On a root that only the publisher wrote nothing is ever disturbed |
| `CaptureService.Service.Publish` | src/securemail/application/analysis_workflow.py:184-186 | The same for the publication alone, through the file-level publisher |
| `ServiceRun.Serve` | src/securemail/application/analysis_workflow.py:195-225 | A service driven by any commands from its construction is, state for state, a run of the protocol, so the theorems on reachable states hold of the object |
| `Catalog.PublicationExact` | src/securemail/adapters/persistence/writable_catalog.py:42-70 | On every root the reader accepts: at each write the catalog stays valid and each case reads as old or new bytes, and the last write shows exactly the map update, iff the publication stores nothing, or no other case's entry names its file (or, if the catalog is full, the file held the same bytes) and the new catalog text fits the reader |
| `Catalog.PublicationsExact` | src/securemail/adapters/persistence/writable_catalog.py:42-96 | The same iff over any sequence of publications, whose last root then shows the fold of map updates |
| `Catalog.SharedFileBreaksCatalog` | src/securemail/adapters/persistence/writable_catalog.py:56-70 | A successful publication onto a file that another case's entry names leaves a catalog the reader refuses |
| `Catalog.SharedFileOverwrites` | src/securemail/adapters/persistence/writable_catalog.py:50-54 | Already after the report file is replaced, that other case reads as the new bytes |
| `Catalog.CaseOneBreaks` | tests/unit/test_report_repository.py:27-35 | The root of the reader's own test is such a root: publishing "case" makes the reader refuse the catalog |
| `OversizeCatalog.OversizeExample` | src/securemail/adapters/persistence/writable_catalog.py:56-70 | With the default limits, a catalog of 255 foreign entries with wide characters is read without an error until one more case is published; then its escaped text is over the reader's bound |
| `Catalog.PublicationCorrect` | src/securemail/adapters/persistence/writable_catalog.py:42-70 | On a root that only the publisher wrote, every publication refines the map update at each write and leaves such a root, with entries sorted |
| `Catalog.Publisher.PublishReport` | src/securemail/adapters/persistence/writable_catalog.py:42-96 | Passes through exactly the writes of the specification; on any readable root these refine the map update iff the publication is undisturbed; a publisher-made root stays one |
| `Catalog.PublicationsRefine` | src/securemail/adapters/persistence/writable_catalog.py:42-96 | From an empty or publisher-made root any sequence of publications refines the fold of map updates at every write, entries unique and sorted |
| `Catalog.ListedGood` | src/securemail/adapters/persistence/writable_catalog.py:58-66 | The rewritten entry list is sorted, unique and holds exactly the old cases and the new one |
| `Catalog.LoadCatalogPaths` | src/securemail/adapters/persistence/report_repository.py:73-103 | Succeeds iff the catalog is within its size bound and identifiers, paths and resolved files are valid and distinct within the limit, and then returns exactly the listed files: JSON files below the root, none through an absolute path, an empty, dot or dot-dot component, no two cases to one |
| `Catalog.TraversalExample` | tests/unit/test_report_repository.py:63-67 | Both inputs of the traversal test are refused |
| `Catalog.GetReport` | src/securemail/adapters/persistence/report_repository.py:66-71 | On every root: an error iff the catalog is refused or the listed file is missing or too large, None iff the case is unlisted, otherwise the bytes of the file its entry names |
| `Catalog.ListReports` | src/securemail/adapters/persistence/report_repository.py:58-64 | Succeeds iff the root is readable, and then lists every case once, in order, with the size of what it reads as |
| `Catalog.StalePathReads` | src/securemail/adapters/persistence/report_repository.py:66-71 | A path looked up before any publications stays readable at each of their later writes, and holds what was listed or what a request wrote under that file name |
| `Catalog.StaleReadIsAVersion` | src/securemail/adapters/persistence/report_repository.py:66-71 | For a case listed under its own file name that is its old report or a newer one of the same case |
| `ReportPaths.ResolveReportName` | src/securemail/adapters/persistence/report_repository.py:112-130 | The reader resolves what the publisher lists to the file the publisher wrote |
| `ReportPaths.ResolvedIsReport` | src/securemail/adapters/persistence/report_repository.py:112-130 | No accepted path leads to the catalog or to a temporary file |
| `ReportPaths.ResolvedStaysBelow` | src/securemail/adapters/persistence/report_repository.py:112-130 | Whatever is accepted stays below the root, names a JSON file in any case and keeps the components of the path |
| `ReportPaths.AcceptedPaths` | src/securemail/adapters/persistence/report_repository.py:112-119 | Exactly which paths are accepted, component by component |
| `ReportPaths.NestedIsAccepted` | src/securemail/adapters/persistence/report_repository.py:112-130 | Every nested path of plain components to a JSON file other than the catalog resolves to itself |
| `ReportPaths.SplitSpells` | src/securemail/adapters/persistence/report_repository.py:113-118 | Components hold no slash and, joined, spell the path |
| `Catalog.PublishMeans` | src/securemail/adapters/persistence/writable_catalog.py:42-64 | The map update happens iff identifier, report size and number of cases are within limits, and changes that one case |
| `Catalog.CatalogTextSize` | src/securemail/adapters/persistence/writable_catalog.py:63-68 | The size used in the exactness results is the length of the JSON text, indentation and escapes included |
| `Starttls.SmtpUpgrade` | src/securemail/domain/policies/starttls/smtp_upgrade.py:43-138 | State, evidence state, downgrade flag and frames equal the declarative meaning of the trace, and the same in SMTP terms: codes 200 to 299 on the first reply accept, AUTH before leaks, codes of 400 and more are cited; frames strictly increase |
| `Starttls.ImapUpgrade` | src/securemail/domain/policies/starttls/imap_upgrade.py:40-147 | The same in IMAP terms: OK, NO and BAD under the tag of the request |
| `Starttls.Pop3Upgrade` | src/securemail/domain/policies/starttls/pop3_upgrade.py:40-141 | The same in POP3 terms: +OK and -ERR |
| `Starttls.Conclude` | src/securemail/domain/policies/starttls/smtp_upgrade.py:106-138 | The closing precedence, ClientHello frames and sort give the declared outcome of the trace |
| `UpgradeStates.SmtpNeedsPositiveReply` | src/securemail/domain/policies/starttls/smtp_upgrade.py:72-81 | Without a STARTTLS observation, accepted or established means: the first reply to the latest request had a code from 200 to 299 |
| `UpgradeStates.SmtpOneReply` | src/securemail/domain/policies/starttls/smtp_upgrade.py:72-81 | A request and one reply: accepted iff 200 <= code < 300, cited iff that or code >= 400 |
| `UpgradeStates.SmtpCredentials` | src/securemail/domain/policies/starttls/smtp_upgrade.py:90-95 | AUTH with no acceptance before it never ends below plaintext fallback |
| `UpgradeStates.ImapNeedsOk` | src/securemail/domain/policies/starttls/imap_upgrade.py:78-90 | The same for an OK under the tag |
| `UpgradeStates.ImapOneReply` | src/securemail/domain/policies/starttls/imap_upgrade.py:78-90 | OK accepts, NO, BAD and another tag do not; a refusal under the tag is cited |
| `UpgradeStates.ImapCredentials` | src/securemail/domain/policies/starttls/imap_upgrade.py:99-104 | LOGIN and AUTHENTICATE before acceptance never end below plaintext fallback |
| `UpgradeStates.Pop3NeedsOk` | src/securemail/domain/policies/starttls/pop3_upgrade.py:76-82 | The same for +OK |
| `UpgradeStates.Pop3OneReply` | src/securemail/domain/policies/starttls/pop3_upgrade.py:76-82 | +OK accepts, -ERR does not and is cited |
| `UpgradeStates.Pop3Credentials` | src/securemail/domain/policies/starttls/pop3_upgrade.py:93-98 | USER, PASS, APOP and AUTH before acceptance never end below plaintext fallback |
| `Upgrade.FoldMeaning` | src/securemail/domain/policies/starttls/imap_upgrade.py:58-117 | After any prefix the flags say exactly what the trace predicates say: outstanding request, acceptance, violation, fallback, citations |
| `Upgrade.OutcomeOfFlags` | src/securemail/domain/policies/starttls/imap_upgrade.py:120-138 | The terminal state read off the flags is the declared outcome |
| `Upgrade.OutcomeNeverDrops` | src/securemail/domain/policies/starttls/imap_upgrade.py:58-139 | Extending a trace never weakens its state: which states can follow which, one by one |
| `RuleEngine.EvalPredicates` | src/securemail/domain/policies/rule_engine.py:700-717 | The early-exit loop computes the strong-Kleene conjunction and the states of all unusable predicates |
| `RuleEngine.Evaluate` | src/securemail/domain/policies/rule_engine.py:633-690 | The branches of rule evaluation equal the verdict on the two conjunctions |
| `RuleEngine.VerdictMeans` | src/securemail/domain/policies/rule_engine.py:633-671 | A rule passes iff it applies and all assertions hold, is negative iff it applies, some assertion fails and its fail outcome is negative; pass and fail checks say the same |
| `RuleEngine.UnusableIsReported` | src/securemail/domain/policies/rule_engine.py:727-739 | A predicate flagged by an `evidence_state` path, the form every shipped pack uses, is reported with exactly that state; one without a value never with a usable state |
| `RuleEngine.FlagDecides` | src/securemail/domain/policies/rule_engine.py:727-739 | Flagged incomplete, conflicting, not observable or indeterminate a predicate is unusable whatever its value; flagged observed, verified or inferred it is what it is without a flag |
| `RuleEngine.UnflaggedPredicate` | src/securemail/domain/policies/rule_engine.py:733-739 | Unusable iff without a value or with a rejected comparison, else as compared |
| `RuleEngine.FlaggedNeverPasses` | src/securemail/domain/policies/rule_engine.py:633-671 | An assertion so flagged leaves no pass and no passed check; a where predicate so flagged leaves the rule not applicable |
| `RuleEngine.SilenceMeans` | src/securemail/domain/policies/rule_engine.py:496-502 | A rule is silent iff the day is outside its half-open interval, the role is not one of its roles, or a where predicate fails |
| `RuleEngine.UnusableCoverage` | src/securemail/domain/policies/rule_engine.py:674-684 | Not observable iff that is the worst among the unusable states, else unknown, with the weakest state |
| `RuleEngine.StateOfField` | src/securemail/domain/policies/rule_engine.py:952-976 | The state of a field is that of its group, else that of the record, else inferred or observed |
| `Evidence.WeakestMeans` | src/securemail/domain/policies/rule_engine.py:42-50 | The weakest state, by the order of weakness written out |
| `RuleEngine.EvaluationForgetsOrder` | src/securemail/domain/policies/rule_engine.py:633-739 | Order and repetition of predicates change neither result, check outcome nor coverage state |
| `RuleEngine.LosingEvidenceNeverDecides` | src/securemail/domain/policies/rule_engine.py:633-739 | Making any predicates unusable never yields a pass or negative, of rule or check, that the fuller evidence did not |
| `Citations.CollectReferences` | src/securemail/domain/policies/rule_engine.py:903-934 | One reference per path, each with the weakest state recorded for it, in order |
| `Citations.BasisIsWeakest` | src/securemail/domain/policies/rule_engine.py:1041-1044 | The weakest state over the merged references is the weakest over all recorded pairs |
| `Citations.BasisOfRule` | src/securemail/domain/policies/rule_engine.py:903-949 | A finding's basis is the weakest over all where and assertion predicates, plus inferred when the rule is role-scoped |
| `PolicyBatch.ClassifyRole` | src/securemail/domain/policies/rule_engine.py:603-622 | The id of the single matching role, "unclassified" when none matches or flow or session is missing, "indeterminate" when several match; a role that bears one of these names itself is not told apart |
| `PolicyBatch.EvaluateBatch` | src/securemail/domain/policies/rule_engine.py:382-487 | The nested loops over rules and records yield the specified findings and checks, sorted |
| `PolicyContexts.FlaggedRecord` | src/securemail/domain/policies/rule_engine.py:407-466 | On a record, a flagged assertion gives no passed check and a flagged where part no finding |
| `PolicyContexts.LeafMeans` | src/securemail/domain/policies/rule_engine.py:558-566 | The leaf is a server certificate of the uid at chain index 0, the one of least digest |
| `PolicyContexts.CertificateKeyMeans` | src/securemail/domain/policies/rule_engine.py:896-900 | Certificate keys are equal iff uid, side, place in the chain and digest are, for uids without a colon |
| `PolicyContexts.TargetsMean` | src/securemail/domain/policies/rule_engine.py:505-519 | A rule looks at all records of its target and at no other |
| `PolicyContexts.FlowOfContext` | src/securemail/domain/policies/rule_engine.py:395-405 | A record is evaluated with the last flow of its uid |
| `PolicyContexts.SessionOfContext` | src/securemail/domain/policies/rule_engine.py:395-405 | And with the last session |
| `PolicyContexts.HandshakeOfContext` | src/securemail/domain/policies/rule_engine.py:397-399 | A handshake with itself, any other record with the first handshake of its uid |
| `PolicyContexts.InForce` | src/securemail/domain/policies/rule_engine.py:496-502 | In terms of instants: from midnight of the first day up to midnight of the last |
| `PolicyContexts.CheckLabels` | src/securemail/domain/policies/rule_engine.py:992-1038 | Category by target, protocol by session, endpoint by flow |
| `PolicyContexts.FindingLabels` | src/securemail/domain/policies/rule_engine.py:836-893 | Severity and evaluation state by outcome, endpoint by flow |
| `PolicyContexts.PublishedInOrder` | src/securemail/domain/policies/rule_engine.py:468-487 | Both lists are published in the order of endpoints |
| `PolicyContexts.FindingOrder` | src/securemail/domain/policies/rule_engine.py:468-477 | Within an endpoint findings come flow, session, handshake, certificate |
| `PolicyTheorems.FindingsMatchChecks` | src/securemail/domain/policies/rule_engine.py:407-466 | Negative findings and failed checks have the same sites, one to one; every finding has a non-pass check of its own |
| `PolicyTheorems.CorrespondenceMeans` | src/securemail/domain/policies/rule_engine.py:407-466 | Hence equal counts, no finding when all checks pass, and no failed check when there is no finding |
| `PolicyTheorems.NegativeFindingIff` | src/securemail/domain/policies/rule_engine.py:424-466 | On a record a rule raises a negative finding iff it is active, in role, its where part passes and some assertion fails; the finding is verified and has the rule's negative severity |
| `PolicyTheorems.EvaluationForgetsInputOrder` | src/securemail/domain/policies/rule_engine.py:395-487 | With uids, certificate keys and rule ids determining their records, both lists are unchanged by any permutation of evidence, rules and roles |
| `PolicyTheorems.ContextForgetsOrder` | src/securemail/domain/policies/rule_engine.py:522-622 | The context of a record, leaf certificate and service role included, does not depend on evidence or role order |
| `PolicyTheorems.FindingIdsDetermine` | src/securemail/domain/policies/rule_engine.py:862-874 | Under a collision-free digest, and with no bar in the rule ids or else none in the record keys, a finding id determines its finding, through the joined text that is hashed |
| `PolicyTheorems.BarsCollide` | src/securemail/domain/policies/rule_engine.py:862-874 | With bars in both, two rules on two flows give the same text, so that condition is needed: the schema gives rule ids no pattern |
| `DedupTheorems.EveryFindingIsKept` | src/securemail/domain/findings/dedup.py:181-235 | Contributing ids over all clusters are exactly the input ids, as a multiset |
| `DedupTheorems.RecurrencesAddUp` | src/securemail/domain/findings/dedup.py:181-235 | Recurrences sum to the input length; each cluster has between one and `recurrence` distinct occurrences; no clusters iff no findings |
| `DedupTheorems.ClusterSpeaksForMembers` | src/securemail/domain/findings/dedup.py:143-193 | A cluster is negative iff a member is, and carries the weakest basis and the highest severity among the members of its outcome |
| `DedupTheorems.ClusterHolds` | src/securemail/domain/findings/dedup.py:119-125 | A cluster holds all findings that agree on code, endpoint, profile and policy version, and no other |
| `DedupTheorems.OneOccurrence` | src/securemail/domain/findings/dedup.py:96-100 | Two findings are one occurrence iff their first references name the same record; without references each stands alone |
| `DedupTheorems.OccurrencesCounted` | src/securemail/domain/findings/dedup.py:195-218 | Unique occurrences are the number of different such keys |
| `DedupTheorems.HighestSeverityMeans` | src/securemail/domain/findings/dedup.py:148-149 | High before medium before low before informational |
| `DedupTheorems.ClusterSpansMembers` | src/securemail/domain/findings/dedup.py:213-215 | A cluster starts with its earliest rule date and ends with its latest evaluation |
| `DedupTheorems.RepresentativeMeans` | src/securemail/domain/findings/dedup.py:181-211 | It speaks in the words of the member of least id among those of its outcome |
| `DedupTheorems.OccurrencesListed` | src/securemail/domain/findings/dedup.py:196-199 | It lists one occurrence per member |
| `DedupTheorems.SessionMeans` | src/securemail/domain/findings/dedup.py:82-93 | The session of an occurrence is the first session reference |
| `DedupTheorems.DedupForgetsOrder` | src/securemail/domain/findings/dedup.py:119-235 | When ids determine findings, the digest is collision-free and versions hold no bar, the whole result is independent of input order |
| `DedupTheorems.MergeKeepsReferences` | src/securemail/domain/findings/dedup.py:156-178 | Merged references are those of the members, once each, in order, up to the cap |
| `Dedup.DedupFindings` | src/securemail/domain/findings/dedup.py:225-235 | The dictionary loop groups by code, endpoint and policy identity and returns the sorted clusters |
| `Dedup.MergeReferences` | src/securemail/domain/findings/dedup.py:156-178 | The dictionary loop returns the distinct references of the members, sorted and capped |
| `Posture.ComputeScore` | src/securemail/domain/findings/scoring.py:122-147 | Every score lies in 4..100, so a finding always weighs |
| `Posture.ScoreIsSum` | src/securemail/domain/findings/scoring.py:128-147 | The cap at 100 never bites: the score is the sum of its addends |
| `Posture.SeverityWeighs` | src/securemail/domain/findings/scoring.py:15-20 | Low, medium and high weigh 15, 30 and 50 points over informational |
| `Posture.BasisWeighs` | src/securemail/domain/findings/scoring.py:21-29 | The seven basis states, as differences of two scores |
| `Posture.ExposureWeighs` | src/securemail/domain/findings/scoring.py:57-63 | The five exposures, likewise |
| `Posture.CriticalityWeighs` | src/securemail/domain/findings/scoring.py:64-70 | The five criticalities, likewise |
| `Posture.BlastWeighs` | src/securemail/domain/findings/scoring.py:71-76 | The four blast radii, likewise |
| `Posture.RecurrenceWeighs` | src/securemail/domain/findings/scoring.py:122-125 | Two points for each further occurrence up to the sixth |
| `Posture.LeastScore` | src/securemail/domain/findings/scoring.py:128-147 | The bottom of the scale is 4 |
| `Posture.GreatestScore` | src/securemail/domain/findings/scoring.py:128-147 | And its top is 100, so that the differences fix every score |
| `Posture.AggregateCoverage` | src/securemail/domain/findings/posture.py:235-272 | Every total, row, column and cell counts its checks by outcome, and entries exist only where there are checks |
| `Posture.OverallCounts` | src/securemail/domain/findings/posture.py:235-272 | Each overall count is the number of checks with that outcome |
| `Posture.CellCounts` | src/securemail/domain/findings/posture.py:235-272 | Each count of a cell is the number of its checks with that outcome |
| `Posture.CoverageConserved` | src/securemail/domain/findings/posture.py:235-272 | Cells sum along rows and along columns, and both to the overall counts, for every outcome |
| `Posture.CoverageForgetsOrder` | src/securemail/domain/findings/posture.py:235-272 | The matrix is the same for any order of the checks |
| `Risk.ScoreFindings` | src/securemail/application/run_analysis.py:129-159 | Publishes each cluster once, scored on its asset, in priority order, with coverage, state and risk |
| `Risk.StateMeans` | src/securemail/domain/findings/posture.py:275-280 | Complete iff something was checked and nothing stayed undecided; none iff nothing was checked |
| `Risk.TopScore` | src/securemail/domain/findings/posture.py:209-223 | Priority order puts the highest score first |
| `Risk.PriorityMeans` | src/securemail/domain/findings/posture.py:209-223 | Among equal scores negative clusters come first, and among these the more severe |
| `Risk.FindingsWeigh` | src/securemail/domain/findings/posture.py:283-288 | With a finding the risk is the first prioritized score, between 4 and 100 |
| `Risk.RiskMeans` | src/securemail/domain/findings/posture.py:275-303 | The risk score is 0 iff some check applied and all passed, absent iff there are no findings and coverage is empty or undecided, positive iff there are findings |
| `Risk.AnalysePolicy` | src/securemail/application/run_analysis.py:129-159 | The same of the composed run: pack evaluation, deduplication, scoring, posture |
| `Risk.EngineFindingsDedup` | src/securemail/domain/findings/dedup.py:225-235 | The engine's own findings meet the condition under which their order does not matter |
| `EventMerge.MergeEvents` | src/securemail/application/normalize_sessions.py:469-492 | The in-place loops produce a greedy matching, the enriched Zeek events and the sorted merge |
| `EventMerge.FindBest` | src/securemail/application/normalize_sessions.py:474-484 | The nearest free compatible candidate within the window, the last of equals |
| `EventMerge.PartnerIsNearest` | src/securemail/application/normalize_sessions.py:413-492 | In terms of the inputs: a partner was free, compatible, on the same connection, within two seconds and nearest; an unmatched event had none |
| `EventMerge.MatchingIsInjective` | src/securemail/application/normalize_sessions.py:485-489 | No Zeek event absorbs two TShark events |
| `EventMerge.ZeekEventSurvives` | src/securemail/application/normalize_sessions.py:485-492 | Every Zeek event survives in place, unchanged or enriched by the one event it absorbed |
| `EventMerge.MergedList` | src/securemail/application/normalize_sessions.py:490-492 | The output is sorted by time and order, holds exactly the Zeek events and the survivors, and has the exact length |
| `EventMerge.CompatibleOnlyIf` | src/securemail/application/normalize_sessions.py:413-449 | Only requests with requests and replies with replies, of one side and without a tag clash |
| `EventMerge.CompatibleRequests` | src/securemail/application/normalize_sessions.py:422-428 | Requests are compatible iff they send the same command |
| `EventMerge.CompatibleReplies` | src/securemail/application/normalize_sessions.py:429-442 | Replies by equal codes, or without a code by overlapping texts or the same command |
| `EventMerge.DeltaMeans` | src/securemail/application/normalize_sessions.py:481-482 | The distance compared with the window is that of the two times, on either side |
| `EventMerge.EvidenceMeans` | src/securemail/application/normalize_sessions.py:452-458 | A positive frame number and a non-empty tag are taken over, others not |
| `EventMerge.WithEvidence` | src/securemail/application/normalize_sessions.py:452-458 | Only frame and tag change, and an agreeing tag never does |
| `FrameAttach.MessagesFromHistory` | src/securemail/application/normalize_handshakes.py:210-237 | One message per letter up to the bound, and the letters read back |
| `FrameAttach.AttachFrames` | src/securemail/application/normalize_handshakes.py:357-397 | Each offered frame goes to the first free message of its kind, a retry request otherwise to a ServerHello, and only taken messages change |
| `FrameAttach.AtMostOneFrame` | src/securemail/application/normalize_handshakes.py:386-396 | No message takes two frames |
| `FrameAttach.AttachmentKeeps` | src/securemail/application/normalize_handshakes.py:357-397 | Count, direction and letter are kept; a kind changes only from ServerHello to HelloRetryRequest |
| `FrameAttach.FirstInFirstOut` | src/securemail/application/normalize_handshakes.py:361-387 | A later message of a kind has a frame only after every earlier one |
| `FrameAttach.FramesFollowMessages` | src/securemail/application/normalize_handshakes.py:361-387 | With frames in capture order frame numbers follow message order per original kind |
| `FrameAttach.NoOfferWasted` | src/securemail/application/normalize_handshakes.py:378-386 | A dropped frame found every message of its kind already served, and a dropped retry request every ServerHello too |
| `FrameAttach.LettersAreKinds` | src/securemail/application/normalize_handshakes.py:45-71 | History letters and kinds of message determine each other; any other letter is unknown |
| `FrameAttach.LettersHaveSides` | src/securemail/application/normalize_handshakes.py:214-236 | Capitals are the client, small letters the server, a caret a change of direction |
| `FrameAttach.CodesAreKinds` | src/securemail/application/normalize_handshakes.py:73-87 | Type codes and kinds determine each other, except that a ServerHello with a selected group is a retry request |
| `FrameAttach.OffersMean` | src/securemail/application/normalize_handshakes.py:369-380 | A frame with a positive number offers exactly the types it can read |
| `FrameAttach.TakerShowsOffer` | src/securemail/application/normalize_handshakes.py:388-396 | The message that takes an offer carries its frame number and kind, as observed |
| `Windows.PastIsCausal` | src/securemail/adapters/ml/baselines.py:97-102 | History and peers of a window depend only on strictly earlier windows |
| `Windows.SeriesBefore` | src/securemail/adapters/ml/baselines.py:193-212 | Cutting a sorted series at a day equals sorting the cut list |
| `Windows.PastMeans` | src/securemail/adapters/ml/baselines.py:97-102 | History is the same endpoint on earlier days, peers are the same site and role on earlier days |
| `Windows.SkipMeans` | src/securemail/adapters/ml/baselines.py:85-94 | Not skipped iff at least ten sessions, fourteen earlier windows, good quality and at most forty percent incomplete |
| `Baselines.ScoreWindows` | src/securemail/adapters/ml/baselines.py:193-265 | The loops over grouped, sorted series give each window the score of its own past |
| `Baselines.ScoringIsCausal` | src/securemail/adapters/ml/baselines.py:85-143 | Score, skip reason, contributions and reason of a window depend only on strictly earlier windows |
| `Baselines.RunsAreCausal` | src/securemail/adapters/ml/baselines.py:193-265 | The same between two whole runs, wherever the window stands |
| `Baselines.ScoreMeans` | src/securemail/adapters/ml/baselines.py:205-265 | Suppressed iff in maintenance, skipped iff thin or poor otherwise, above iff some contribution reaches 3.5, citing the first three |
| `Baselines.PageHinkleyScore` | src/securemail/adapters/ml/baselines.py:66-74 | The one-pass statistic is the largest accumulated drift over all starting points |
| `Baselines.DriftMeans` | src/securemail/adapters/ml/baselines.py:66-74 | Each value adds what it exceeds the mean up to it by, less 0.02 |
| `Refit.FitSchedule` | src/securemail/adapters/ml/isolation_forest.py:196-238 | Each day gets the model of its scheduled fit day, trained on exactly the specified vectors |
| `Refit.ModelsAreFresh` | src/securemail/adapters/ml/isolation_forest.py:205-238 | A day has a model iff at least forty trainable windows precede it; the fit day is at most that day, under seven days old, and trained strictly before it |
| `Refit.TrainingMeans` | src/securemail/adapters/ml/isolation_forest.py:199-216 | Trained on are the earlier windows out of maintenance that a scorer would not skip |
| `Refit.RefitsWeekly` | src/securemail/adapters/ml/isolation_forest.py:208-238 | A model is kept for seven days and replaced on the first later day |
| `Refit.ModelsStay` | src/securemail/adapters/ml/isolation_forest.py:205-238 | Once a day has a model every later day has one |
| `Refit.ModelsAreCausal` | src/securemail/adapters/ml/isolation_forest.py:196-238 | Fit day and training vectors of a day depend only on strictly earlier windows |
| `MlHistory.HistoryIsEndOfLog` | src/securemail/adapters/persistence/ml_history_store.py:23-56 | Over any run the stored history is the last `max_windows` of the log, strictly ordered, so that reloading sorts nothing |
| `MlHistory.AnalysisExtends` | src/securemail/application/advisory_pipeline.py:303-376 | One analysis keeps that and numbers its windows above all earlier ones |
| `MlHistory.DaysIncrease` | src/securemail/application/advisory_pipeline.py:368-372 | Over any run each batch has one day index, above those of all earlier batches |
| `MlHistory.NextDaySurvivesTruncation` | src/securemail/application/advisory_pipeline.py:368-371 | Truncation never changes the next day index |
| `MlHistory.ExtractIncreases` | src/securemail/application/advisory_pipeline.py:92-116 | Extraction yields one window per endpoint in strictly increasing endpoint order |
| `MlHistory.ExtractedMeans` | src/securemail/application/advisory_pipeline.py:92-116 | Every endpoint that a session speaks to has a window, which counts its sessions |
| `MlHistory.NextDayMeans` | src/securemail/application/advisory_pipeline.py:369-371 | The next day is one past the last recorded day, and 0 without a history |
| `MlHistory.AssignedMeans` | src/securemail/application/advisory_pipeline.py:303-317 | Numbering sets day and site, marks day 0 as new and keeps everything else |
| `MlHistory.FilesystemMlHistoryStore.LoadWindows` | src/securemail/adapters/persistence/ml_history_store.py:23-42 | Returns the sorted end of what is stored, which on an ordered history is the stored windows unchanged |
| `MlHistory.FilesystemMlHistoryStore.AppendWindows` | src/securemail/adapters/persistence/ml_history_store.py:44-56 | Stores the end of history plus batch for any batch; one that extends the log in order keeps the history the end of the log |
| `MlHistory.FilesystemMlHistoryStore.Analyse` | src/securemail/application/analysis_workflow.py:148-158 | Load, number and append: the new windows come after everything ever logged |

## Left out

- Docker, Zeek, TShark, capinfos and OpenSSL runners, HTML and PDF rendering, routers, CLI and frontend.
- X.509 parsing and path validation: they rest on a library that is not part of this model.
- File-system detail (symbolic links, permissions, partial writes, JSON syntax, case-insensitive file systems): directories are maps from relative paths, a rename is one update.
- Directories below a report root: a catalog entry under `<case>.report.json/` makes that name a directory, on which the rename of the report file raises; the flat map of files does not show this.
- A stale path of a case that was listed under a foreign file name: once the case is republished under its own name, a later publication may reuse the old file (`Catalog.StalePathReads` says exactly what it then holds).
- Two uploads at once: intakes are serialised. Without that, the check for duplicates and the commit could interleave.
- The ML history inside the job protocol: it is modelled on its own in `MlHistory`; a stage that touches it is one protocol step.
- CaptureService.Service.Stage: an upload that fails while it is being received never enters quarantine, and the generated identifiers are parameters.
- CaptureService.Service.Fail: error texts other than those of the pipeline itself are abbreviated.
- EventMerge.MergeEvents: texts are stripped and empty ones dropped before merging (src/securemail/application/normalize_sessions.py:161-187), so the first token of a reply text always exists; the model takes the empty token for a text without one.
- FrameAttach.MessagesFromHistory: history letters are ASCII; parsing of frame fields and the limit of sixteen types per frame happen before the model starts.
- Baselines.ScoreWindows: percentiles, which depend on same-day windows by design, and the text of reasons.
- Refit.FitSchedule: scaling, threshold quantile and the fit are one function of the training vectors; scoring with the model is not modelled.
- PolicyBatch.EvaluateBatch: time zones and the choice of evaluation clock; schema limits on list lengths.
- Risk.ScoreFindings: schema limits (4096 findings, 16384 checks, one million occurrences) are taken to hold.
- Dedup.DedupFindings: the schema limit on contributors per cluster is taken to hold.
- MlHistory.FilesystemMlHistoryStore.LoadWindows: unreadable or invalid history files, which the source reports as errors.
- Session and flow normalisation other than event merging, `classify_reconstruction`, key strength, forward secrecy and implicit TLS: precedence tables that one reading settles.
- YAML loading and schema validation of packs: rules are taken to have at least one assertion, as the schema demands.
