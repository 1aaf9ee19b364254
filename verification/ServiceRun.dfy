/** Whole runs of the capture service are runs of the protocol. */
module ServiceRun {
  import opened Prelude
  import opened Jobs
  import opened JobProtocol
  import opened JobTheorems
  import opened JobProgress
  import opened CaptureService
  import Catalog

  /** `done` is `wanted`, with the queue that the service took where the worker began to claim. */
  predicate Answers(wanted: Action, done: Action) { wanted == done || (wanted.BeginClaim? && done.BeginClaim?) }

  /** One intake, cancel or claim step. */
  method PerformOther(service: Service, a: Action) returns (ghost done: Action)
    requires service.Owned() && !a.Execute?
    modifies service, service.store
    ensures service.Owned() && Answers(a, done)
    ensures service.View() == Apply(old(service.View()), done, service.Limits())
  {
    done := a;
    match a
    case Stage(id, sha, header, request) => service.Stage(id, sha, header, request);
    case Validate => service.Validate();
    case Deduplicate => service.Deduplicate();
    case Commit(run, caseId, fits, now) => service.Commit(run, caseId, fits, now);
    case Cancel(run, now) => var _ := service.Cancel(run, now);
    case BeginClaim(_) =>
      ghost var queue := service.BeginClaim();
      done := BeginClaim(queue);
    case Claim(now) => service.Claim(now);
    case Sweep(run, now) => service.Sweep(run, now);
  }

  method Perform(service: Service, a: Action) returns (ghost done: Action)
    requires service.Owned()
    modifies service, service.store, service.publisher
    ensures service.Owned() && Answers(a, done)
    ensures service.View() == Apply(old(service.View()), done, service.Limits())
  {
    if a.Execute? {
      done := a;
      service.Execute(a.outcome, a.now);
    } else {
      done := PerformOther(service, a);
    }
  }

  lemma RunSnoc(s: System, actions: seq<Action>, a: Action, cfg: Config)
    ensures Run(s, actions + [a], cfg) == Apply(Run(s, actions, cfg), a, cfg)
  {
    RunAppend(s, actions, [a], cfg);
    assert [a][1..] == [];
    assert Run(Run(s, actions, cfg), [a], cfg) == Run(Apply(Run(s, actions, cfg), a, cfg), [], cfg);
  }

  /** A service from its construction through any sequence of commands: every state it gets into is reachable. */
  method Serve(maxJobs: nat, reports: Catalog.Limits, commands: seq<Action>)
    returns (service: Service, ghost done: seq<Action>)
    requires Catalog.Small(reports)
    ensures |done| == |commands| && forall i :: 0 <= i < |done| ==> Answers(commands[i], done[i])
    ensures service.Owned() && service.Limits() == Config(maxJobs, reports)
    ensures service.View() == Run(INITIAL, done, Config(maxJobs, reports))
    ensures Inv(service.View(), Config(maxJobs, reports))
  {
    ghost var cfg := Config(maxJobs, reports);
    service := new Service(maxJobs, reports);
    done := [];
    for i := 0 to |commands|
      invariant fresh(service) && fresh(service.store) && fresh(service.publisher)
      invariant service.Owned() && service.Limits() == cfg
      invariant |done| == i && forall j :: 0 <= j < i ==> Answers(commands[j], done[j])
      invariant service.View() == Run(INITIAL, done, cfg)
    {
      ghost var a := Perform(service, commands[i]);
      RunSnoc(INITIAL, done, a, cfg);
      done := done + [a];
    }
    ReachableInv(done, cfg);
  }
}
