/** The job store as an object whose methods update its files, proved against the functions of `Jobs`. */
module JobStore {
  import opened Prelude
  import opened Sorting
  import opened Jobs

  class FilesystemJobStore {
    const maxJobs: nat
    var jobs: map<Id, Job>
    var flags: set<Id>
    var captures: map<Id, Upload>
    var artifacts: map<(Id, ArtifactName), Bytes>
    var quarantine: map<Id, Upload>

    ghost function View(): Store
      reads this
    {
      Store(jobs, flags, captures, artifacts, quarantine)
    }

    constructor (maxJobs: nat)
      ensures this.maxJobs == maxJobs && View() == Store(map[], {}, map[], map[], map[])
    {
      this.maxJobs := maxJobs;
      jobs, flags, captures, artifacts, quarantine := map[], {}, map[], map[], map[];
    }

    /** Exclusive creation of the quarantine file. */
    method StageCapture(id: Id, upload: Upload) returns (ok: bool)
      modifies this`quarantine
      ensures ok <==> id !in old(quarantine)
      ensures quarantine == if ok then old(quarantine)[id := upload] else old(quarantine)
    {
      if id in quarantine {
        return false;
      }
      quarantine := quarantine[id := upload];
      ok := true;
    }

    method AbortStaged(id: Id)
      modifies this`quarantine
      ensures quarantine == old(quarantine) - {id}
    {
      quarantine := quarantine - {id};
    }

    method CommitStaged(upload: Id, run: Id, job: Job, fits: bool) returns (error: Option<JobError>)
      modifies this
      ensures match Jobs.CommitStaged(old(View()), upload, run, job, maxJobs, fits)
              case Ok(after) => error == None && View() == after
              case Err(e) => error == Some(e) && View() == old(View())
    {
      if !ValidId(upload) || !ValidId(run) {
        return Some(InvalidIdentifier);
      }
      if upload !in quarantine {
        return Some(StagedMissing);
      }
      if |jobs| >= maxJobs {
        return Some(QuotaExceeded);
      }
      if !fits {
        return Some(QuotaExceeded);
      }
      if run in jobs {
        return Some(DuplicateRun);
      }
      captures := captures[run := quarantine[upload]];
      quarantine := quarantine - {upload};
      jobs := jobs[run := job];
      error := None;
    }

    method UpdateJob(run: Id, u: Update, now: int) returns (error: Option<JobError>)
      modifies this`jobs, this`flags
      ensures match Jobs.UpdateJob(old(View()), run, u, now)
              case Ok(after) => error == None && View() == after
              case Err(e) => error == Some(e) && View() == old(View())
    {
      if run !in jobs {
        return Some(NotFound);
      }
      var job := jobs[run];
      var updated := job.(updatedAt := now);
      if u.status.Some? {
        if Terminal(job.status) {
          return Some(Conflict);
        }
        updated := updated.(status := u.status.value);
      }
      if u.stage.Some? {
        updated := updated.(stage := u.stage.value);
      }
      if u.error.Some? {
        updated := updated.(error := u.error);
      }
      if u.artifacts.Some? {
        updated := updated.(artifacts := u.artifacts.value);
      }
      if u.cancel.Some? {
        updated := updated.(cancelRequested := u.cancel.value);
        flags := if u.cancel.value then flags + {run} else flags - {run};
      }
      jobs := jobs[run := updated];
      error := None;
    }

    method RequestCancel(run: Id, now: int) returns (error: Option<JobError>)
      modifies this`jobs, this`flags
      ensures match Jobs.RequestCancel(old(View()), run, now)
              case Ok(after) => error == None && View() == after
              case Err(e) => error == Some(e) && View() == old(View())
    {
      if run !in jobs {
        return Some(NotFound);
      }
      if Terminal(jobs[run].status) {
        return Some(Conflict);
      }
      if jobs[run].status == Queued {
        error := UpdateJob(run, NO_UPDATE.(status := Some(Cancelled), cancel := Some(true)), now);
      } else {
        error := UpdateJob(run, NO_UPDATE.(cancel := Some(true)), now);
      }
    }

    method IsCancelRequested(run: Id) returns (requested: bool)
      ensures requested <==> Jobs.IsCancelRequested(View(), run)
    {
      requested := run in jobs && (jobs[run].cancelRequested || run in flags);
    }

    method WriteArtifact(run: Id, name: ArtifactName, bytes: Bytes) returns (error: Option<JobError>)
      modifies this`artifacts
      ensures match Jobs.WriteArtifact(old(View()), run, name, bytes)
              case Ok(after) => error == None && View() == after
              case Err(e) => error == Some(e) && View() == old(View())
      ensures error == Some(TooLarge) <==>
                match name
                case ReportJson => |bytes| > 8388608
                case ReportHtml => |bytes| > 16777216
                case ReportPdf => |bytes| > 33554432
    {
      if |bytes| > ArtifactLimit(name) {
        return Some(TooLarge);
      }
      if run !in jobs {
        return Some(NotFound);
      }
      artifacts := artifacts[(run, name) := bytes];
      error := None;
    }

    method ReadArtifact(run: Id, name: ArtifactName) returns (r: Result<Option<Bytes>, JobError>)
      ensures r == if run in jobs then Ok(Jobs.ReadArtifact(View(), run, name)) else Err(NotFound)
    {
      if run !in jobs {
        return Err(NotFound);
      }
      r := if (run, name) in artifacts then Ok(Some(artifacts[(run, name)])) else Ok(None);
    }

    /** The newest queued, running or completed job with this key, if there is one. */
    method FindDuplicate(key: Key) returns (found: Option<Id>)
      ensures found.None? <==> !HasDuplicate(View(), key)
      ensures found.None? <==>
                forall run :: (run in jobs && jobs[run].sha == key.sha && jobs[run].profile == key.profile &&
                               jobs[run].hostname == key.hostname) ==> jobs[run].status in {Failed, Cancelled}
      ensures found.Some? ==>
                var run := found.value;
                && run in jobs && jobs[run].status in {Queued, Running, Completed}
                && jobs[run].sha == key.sha && jobs[run].profile == key.profile
                && jobs[run].hostname == key.hostname
      ensures found.Some? ==>
                forall run :: run in jobs && IsDuplicate(View(), key, run) ==>
                                || jobs[run].createdAt < jobs[found.value].createdAt
                                || (jobs[run].createdAt == jobs[found.value].createdAt && StrLe(run, found.value))
    {
      found := None;
      var left := jobs.Keys;
      while left != {}
        invariant left <= jobs.Keys
        invariant found.Some? ==> IsDuplicate(View(), key, found.value)
        invariant forall run :: IsDuplicate(View(), key, run) && run !in left ==>
                                  found.Some? && NotNewer(jobs, run, found.value)
        decreases left
      {
        var run :| run in left;
        if IsMatch(jobs[run], key) && (found.None? || NotNewer(jobs, found.value, run)) {
          NewestSoFar(jobs, left, key, found, run);
          found := Some(run);
        } else if IsMatch(jobs[run], key) {
          NotNewerTotal(jobs, run, found.value);
        }
        left := left - {run};
      }
      DuplicatesByStatus(View(), key);
    }

    static predicate IsMatch(job: Job, key: Key)
      ensures IsMatch(job, key) <==> Active(job) && KeyOf(job) == key
    {
      ActiveOrEnded(job.status);
      && job.sha == key.sha && job.profile == key.profile && job.hostname == key.hostname
      && (!Terminal(job.status) || job.status == Completed)
    }

    static lemma NewestSoFar(jobs: map<Id, Job>, left: set<Id>, key: Key, found: Option<Id>, run: Id)
      requires found.Some? ==> NotNewer(jobs, found.value, run)
      requires run in jobs
      ensures forall r :: found.Some? && NotNewer(jobs, r, found.value) ==> NotNewer(jobs, r, run)
      ensures NotNewer(jobs, run, run)
    {
      forall r | found.Some? && NotNewer(jobs, r, found.value) ensures NotNewer(jobs, r, run) {
        NotNewerTransitive(jobs, r, found.value, run);
      }
      StrLeTotal(run, run);
    }

    /** The queue that one call of `claim_next` works through. */
    method ClaimQueue() returns (queue: seq<Id>)
      ensures IsClaimQueue(View(), queue)
      ensures forall run :: run in queue <==>
                              run in jobs && jobs[run].status == Queued && !jobs[run].cancelRequested
      ensures forall i, j :: 0 <= i < j < |queue| ==> jobs[queue[i]].createdAt <= jobs[queue[j]].createdAt
    {
      queue := [];
      var left := jobs.Keys;
      while left != {}
        invariant left <= jobs.Keys
        invariant forall run :: run in queue <==> run in jobs && run !in left && Claimable(jobs[run])
        invariant forall i, j :: 0 <= i < j < |queue| ==> queue[i] != queue[j]
        decreases left
      {
        var run :| run in left;
        if jobs[run].status == Queued && !jobs[run].cancelRequested {
          queue := queue + [run];
        }
        left := left - {run};
      }
      OldestFirstSorts(jobs, queue);
      queue := OldestFirst(jobs, queue);
    }

    static function OldestFirst(jobs: map<Id, Job>, runs: seq<Id>): seq<Id>
    {
      SortBy((a: Id, b: Id) => Before(jobs, a, b), runs)
    }

    static lemma OldestFirstSorts(jobs: map<Id, Job>, runs: seq<Id>)
      requires forall i, j :: 0 <= i < j < |runs| ==> runs[i] != runs[j]
      requires forall run :: run in runs ==> run in jobs
      ensures forall run :: run in OldestFirst(jobs, runs) <==> run in runs
      ensures forall i, j :: 0 <= i < j < |runs| ==>
                var queue := OldestFirst(jobs, runs);
                queue[i] != queue[j] && NotNewer(jobs, queue[i], queue[j])
    {
      var le := (a: Id, b: Id) => Before(jobs, a, b);
      var queue := SortBy(le, runs);
      BeforeOrder(jobs);
      SortSorted(le, runs);
      SortMembers(le, runs);
      SortDistinct(runs, queue);
      forall i, j | 0 <= i < j < |runs| ensures NotNewer(jobs, queue[i], queue[j]) {
        assert le(queue[i], queue[j]) && queue[i] in runs && queue[j] in runs;
      }
    }

    /** `NotNewer`, made total on identifiers without a job. */
    static predicate Before(jobs: map<Id, Job>, a: Id, b: Id)
    {
      if a in jobs && b in jobs then NotNewer(jobs, a, b) else a in jobs ==> b in jobs
    }

    static lemma NotNewerTotal(jobs: map<Id, Job>, a: Id, b: Id)
      requires a in jobs && b in jobs
      ensures NotNewer(jobs, a, b) || NotNewer(jobs, b, a)
    {
      StrLeTotal(a, b);
    }

    static lemma NotNewerTransitive(jobs: map<Id, Job>, a: Id, b: Id, c: Id)
      requires NotNewer(jobs, a, b) && NotNewer(jobs, b, c)
      ensures NotNewer(jobs, a, c)
    {
      if StrLe(a, b) && StrLe(b, c) {
        StrLeTransitive(a, b, c);
      }
    }

    static lemma BeforeOrder(jobs: map<Id, Job>)
      ensures TotalPreorder((a: Id, b: Id) => Before(jobs, a, b))
    {
      forall a, b ensures Before(jobs, a, b) || Before(jobs, b, a) {
        if a in jobs && b in jobs {
          NotNewerTotal(jobs, a, b);
        }
      }
      forall a, b, c | Before(jobs, a, b) && Before(jobs, b, c) ensures Before(jobs, a, c) {
        if a in jobs {
          NotNewerTransitive(jobs, a, b, c);
        }
      }
    }

    static lemma SortDistinct(unsorted: seq<Id>, sorted: seq<Id>)
      requires multiset(sorted) == multiset(unsorted)
      requires forall i, j :: 0 <= i < j < |unsorted| ==> unsorted[i] != unsorted[j]
      ensures forall i, j :: 0 <= i < j < |sorted| ==> sorted[i] != sorted[j]
    {
      forall i, j | 0 <= i < j < |sorted| ensures sorted[i] != sorted[j] {
        if sorted[i] == sorted[j] {
          TwiceInMultiset(sorted, i, j);
          OnceInMultiset(unsorted, sorted[i]);
        }
      }
    }

    static lemma TwiceInMultiset(s: seq<Id>, i: nat, j: nat)
      requires i < j < |s| && s[i] == s[j]
      ensures multiset(s)[s[i]] >= 2
    {
      assert s == s[..j] + [s[j]] + s[j + 1..];
      assert s[i] in multiset(s[..j]) by { assert s[..j][i] == s[i]; }
    }

    static lemma {:induction false} OnceInMultiset(s: seq<Id>, x: Id)
      requires forall i, j :: 0 <= i < j < |s| ==> s[i] != s[j]
      ensures multiset(s)[x] <= 1
    {
      if s != [] {
        assert s == [s[0]] + s[1..];
        OnceInMultiset(s[1..], x);
        if s[0] == x {
          assert x !in s[1..];
        }
      }
    }
  }
}
