/** The production sweep: a first pass over every in-scope check, one retry of the indeterminate
    ones, and the statements it issues on the findings table. */
module Sweep {
  import opened Findings
  import IssueTracker
  import opened Wrappers

  datatype Repo = Repo(name: string, archived: bool, fork: bool)

  datatype Convention = Convention(id: string, appliesTo: seq<string>, excludeRepos: seq<string>) {
    predicate AppliesToType(t: string) {
      appliesTo == [] || t in appliesTo
    }

    predicate AppliesToRepo(name: string) {
      name !in excludeRepos
    }
  }

  /** `convention` is the ID the check itself reports; `indeterminate` is a non-nil Err. */
  datatype CheckResult = CheckResult(convention: string, pass: bool, detail: string, indeterminate: bool)

  const UNCONFIGURED: string := "unconfigured"

  /** Everything a sweep meets: data, the answers of checks and of the issue tracker, which calls
      succeed, and the clock. The number passed to `check` and `now` is the attempt, 0 or 1. */
  datatype Inputs = Inputs(
    repos: seq<Repo>,
    types: map<string, string>,
    conventions: seq<Convention>,
    check: (string, string, nat) -> CheckResult,
    ensureIssue: (string, string) -> IssueTracker.Outcome,
    closeIssue: (string, string) -> IssueTracker.Outcome,
    production: bool,
    setupOk: bool,
    tokenOk: string -> bool,
    upsertOk: string -> bool,
    saveOk: Key -> bool,
    purgeOk: bool,
    modelOk: bool,
    now: (string, string, nat) -> int,
    start: int)
  {
    function TypeOf(repo: string): string {
      if repo in types then types[repo] else UNCONFIGURED
    }

    predicate Applies(c: Convention, repo: string) {
      c.AppliesToType(TypeOf(repo)) && c.AppliesToRepo(repo)
    }

    function CheckOf(j: Job, attempt: nat): CheckResult {
      check(j.repo, j.id, attempt)
    }

    predicate Errs(j: Job, attempt: nat) {
      CheckOf(j, attempt).indeterminate
    }

    function KeyOf(j: Job, attempt: nat): Key {
      (j.repo, CheckOf(j, attempt).convention)
    }
  }

  /** One (repo, convention) pair to check. */
  datatype Job = Job(repo: string, id: string)

  // ---- Specification ----

  function ScopeFrom(inp: Inputs, repo: string, convs: seq<Convention>): seq<Job> {
    if convs == [] then []
    else (if inp.Applies(convs[0], repo) then [Job(repo, convs[0].id)] else []) + ScopeFrom(inp, repo, convs[1..])
  }

  predicate Active(r: Repo) {
    !r.archived && !r.fork
  }

  /** The pairs of active repos, in the order they are visited. */
  function InScope(inp: Inputs, repos: seq<Repo>): seq<Job> {
    if repos == [] then []
    else (if Active(repos[0]) then ScopeFrom(inp, repos[0].name, inp.conventions) else []) + InScope(inp, repos[1..])
  }

  /** The same, without repos whose upsert fails. */
  function Jobs(inp: Inputs, repos: seq<Repo>): seq<Job> {
    if repos == [] then []
    else (if Active(repos[0]) && inp.upsertOk(repos[0].name)
          then ScopeFrom(inp, repos[0].name, inp.conventions) else []) + Jobs(inp, repos[1..])
  }

  predicate EnsureFails(inp: Inputs, j: Job, attempt: nat) {
    inp.production && !inp.CheckOf(j, attempt).pass && inp.ensureIssue(j.repo, j.id).Failed?
  }

  predicate CloseFails(inp: Inputs, j: Job, attempt: nat) {
    inp.production && inp.CheckOf(j, attempt).pass && inp.closeIssue(j.repo, j.id).Failed?
  }

  /** What a settled check asks of the issue tracker; outside production it asks nothing. */
  datatype Ask = NoAsk | RaiseIssue | CloseIssue

  function AskOf(inp: Inputs, j: Job, attempt: nat): Ask {
    if !inp.production then NoAsk else if inp.CheckOf(j, attempt).pass then CloseIssue else RaiseIssue
  }

  function AnswerTo(inp: Inputs, j: Job, ask: Ask): IssueTracker.Outcome {
    match ask
    case NoAsk => IssueTracker.Nothing
    case RaiseIssue => inp.ensureIssue(j.repo, j.id)
    case CloseIssue => inp.closeIssue(j.repo, j.id)
  }

  function IssueFor(inp: Inputs, j: Job, attempt: nat): Option<nat> {
    if inp.production && !inp.CheckOf(j, attempt).pass && inp.ensureIssue(j.repo, j.id).Url?
    then Some(inp.ensureIssue(j.repo, j.id).number) else None
  }

  function RowFor(inp: Inputs, j: Job, attempt: nat): Row {
    var r := inp.CheckOf(j, attempt);
    Row(r.pass, r.detail, IssueFor(inp, j, attempt), inp.now(j.repo, j.id, attempt))
  }

  function SaveFor(inp: Inputs, j: Job, attempt: nat): seq<Event> {
    if inp.saveOk(inp.KeyOf(j, attempt)) then [Save(inp.KeyOf(j, attempt), RowFor(inp, j, attempt), true)] else []
  }

  /** What a pass has done so far: statements committed, checks deferred, skip count, checks run. */
  datatype Pass = Pass(saves: seq<Event>, pending: seq<Job>, skipped: nat, calls: seq<(Job, nat)>)

  function RunJob(inp: Inputs, j: Job, attempt: nat, p: Pass): Pass {
    var called := p.(calls := p.calls + [(j, attempt)]);
    if inp.Errs(j, attempt) then
      if attempt == 0 then called.(pending := p.pending + [j]) else called.(skipped := p.skipped + 1)
    else called.(saves := p.saves + SaveFor(inp, j, attempt),
                 skipped := p.skipped + if EnsureFails(inp, j, attempt) then 1 else 0)
  }

  function RunJobs(inp: Inputs, jobs: seq<Job>, attempt: nat, p: Pass): Pass
    decreases |jobs|
  {
    if jobs == [] then p else RunJobs(inp, jobs[1..], attempt, RunJob(inp, jobs[0], attempt, p))
  }

  /** The first pass; it stops, with `true`, at the first repo whose token cannot be refreshed. */
  function FirstPass(inp: Inputs, repos: seq<Repo>, p: Pass): (Pass, bool)
    decreases |repos|
  {
    if repos == [] then (p, false)
    else
      var r := repos[0];
      if !Active(r) then FirstPass(inp, repos[1..], p)
      else if !inp.tokenOk(r.name) then (p, true)
      else if !inp.upsertOk(r.name) then FirstPass(inp, repos[1..], p)
      else FirstPass(inp, repos[1..], RunJobs(inp, ScopeFrom(inp, r.name, inp.conventions), 0, p))
  }

  datatype SweepError = Nil | SetupFailed | TokenExpired | Incomplete(skipped: nat)

  const FRESH := Pass([], [], 0, [])

  /** The sweep: its result, the statements it commits, and the checks it runs. */
  function SweepSpec(inp: Inputs): (SweepError, seq<Event>, seq<(Job, nat)>) {
    if !inp.setupOk then (SetupFailed, [], [])
    else
      var (p, expired) := FirstPass(inp, inp.repos, FRESH);
      if expired then (TokenExpired, p.saves, p.calls)
      else
        var q := RunJobs(inp, p.pending, 1, p);
        if q.skipped > 0 then (Incomplete(q.skipped), q.saves, q.calls)
        else (Nil, q.saves + if inp.purgeOk then [Purge(inp.start)] else [], q.calls)
  }

  // ---- The routine ----

  class AuditSweeper {
    const db: FindingsTable

    constructor (db: FindingsTable)
      ensures this.db == db
    {
      this.db := db;
    }

    /** `modelReport` is what is reported of the C4 stage: nothing unless it ran, and it runs exactly when
        the sweep succeeds. Its failure and that of the purge leave the result as it is. */
    method Sweep(inp: Inputs) returns (err: SweepError, modelReport: Option<bool>, ghost calls: seq<(Job, nat)>)
      requires db.Valid()
      modifies db
      ensures db.Valid()
      ensures err == SweepSpec(inp).0 && calls == SweepSpec(inp).2
      ensures modelReport == if err == Nil then Some(inp.modelOk) else None
      ensures db.log == old(db.log) + SweepSpec(inp).1
    {
      modelReport, calls := None, [];
      if !inp.setupOk {
        return SetupFailed, None, [];
      }
      var skippedCount, pendingRetries := 0, [];
      ghost var log := db.log;
      ghost var p := FRESH;
      assert inp.repos[0..] == inp.repos;
      for i := 0 to |inp.repos|
        invariant db.Valid()
        invariant p.pending == pendingRetries && p.skipped == skippedCount && db.log == log + p.saves
        invariant FirstPass(inp, inp.repos, FRESH) == FirstPass(inp, inp.repos[i..], p)
      {
        assert inp.repos[i..][1..] == inp.repos[i + 1..];
        var repo := inp.repos[i];
        if repo.archived { continue; }
        if repo.fork { continue; }
        if !inp.tokenOk(repo.name) {
          return TokenExpired, None, p.calls;
        }
        if !inp.upsertOk(repo.name) { continue; }
        pendingRetries, skippedCount, p := CheckRepo(inp, repo.name, pendingRetries, skippedCount, log, p);
      }
      skippedCount, p := RetryTail(inp, pendingRetries, skippedCount, log, p);
      calls := p.calls;
      if skippedCount > 0 {
        return Incomplete(skippedCount), None, calls;
      }
      var _ := db.DeleteStaleFindings(inp.start, inp.purgeOk);
      err, modelReport := Nil, Some(inp.modelOk);
    }

    method CheckRepo(inp: Inputs, repo: string, pending: seq<Job>, skipped: nat, ghost log: seq<Event>, ghost p0: Pass)
      returns (pendingRetries: seq<Job>, skippedCount: nat, ghost p: Pass)
      requires db.Valid()
      requires p0.pending == pending && p0.skipped == skipped && db.log == log + p0.saves
      modifies db
      ensures db.Valid()
      ensures p == RunJobs(inp, ScopeFrom(inp, repo, inp.conventions), 0, p0)
      ensures p.pending == pendingRetries && p.skipped == skippedCount && db.log == log + p.saves
    {
      pendingRetries, skippedCount, p := pending, skipped, p0;
      assert inp.conventions[0..] == inp.conventions;
      for k := 0 to |inp.conventions|
        invariant db.Valid()
        invariant p.pending == pendingRetries && p.skipped == skippedCount && db.log == log + p.saves
        invariant RunJobs(inp, ScopeFrom(inp, repo, inp.conventions), 0, p0)
               == RunJobs(inp, ScopeFrom(inp, repo, inp.conventions[k..]), 0, p)
      {
        ScopeStep(inp, repo, inp.conventions, k);
        var c := inp.conventions[k];
        if !c.AppliesToType(inp.TypeOf(repo)) { continue; }
        if !c.AppliesToRepo(repo) { continue; }
        var j := Job(repo, c.id);
        RunStep(inp, j, ScopeFrom(inp, repo, inp.conventions[k + 1..]), 0, p);
        pendingRetries, skippedCount, p := FirstAttempt(inp, j, pendingRetries, skippedCount, log, p);
      }
    }

    /** The body of the first pass for one check. */
    method FirstAttempt(inp: Inputs, j: Job, pending: seq<Job>, skipped: nat, ghost log: seq<Event>, ghost p0: Pass)
      returns (pendingRetries: seq<Job>, skippedCount: nat, ghost p: Pass)
      requires db.Valid()
      requires p0.pending == pending && p0.skipped == skipped && db.log == log + p0.saves
      modifies db
      ensures db.Valid()
      ensures p == RunJob(inp, j, 0, p0)
      ensures p.pending == pendingRetries && p.skipped == skippedCount && db.log == log + p.saves
    {
      pendingRetries, skippedCount, p := pending, skipped, RunJob(inp, j, 0, p0);
      var result := inp.check(j.repo, j.id, 0);
      if result.indeterminate {
        pendingRetries := pendingRetries + [j];
        return;
      }
      var skip, _, _ := ProcessCheckResult(inp, j, 0);
      if skip {
        skippedCount := skippedCount + 1;
      }
    }

    method RetryTail(inp: Inputs, pendingRetries: seq<Job>, skipped: nat, ghost log: seq<Event>, ghost p0: Pass)
      returns (skippedCount: nat, ghost p: Pass)
      requires db.Valid()
      requires p0.skipped == skipped && db.log == log + p0.saves
      modifies db
      ensures db.Valid()
      ensures p == RunJobs(inp, pendingRetries, 1, p0)
      ensures p.skipped == skippedCount && db.log == log + p.saves
    {
      skippedCount, p := skipped, p0;
      assert pendingRetries[0..] == pendingRetries;
      for k := 0 to |pendingRetries|
        invariant db.Valid()
        invariant p.skipped == skippedCount && db.log == log + p.saves
        invariant RunJobs(inp, pendingRetries, 1, p0) == RunJobs(inp, pendingRetries[k..], 1, p)
      {
        var j := pendingRetries[k];
        assert pendingRetries[k..] == [j] + pendingRetries[k + 1..];
        RunStep(inp, j, pendingRetries[k + 1..], 1, p);
        p := RunJob(inp, j, 1, p);
        var result := inp.check(j.repo, j.id, 1);
        if result.indeterminate {
          skippedCount := skippedCount + 1;
          continue;
        }
        var skip, _, _ := ProcessCheckResult(inp, j, 1);
        if skip {
          skippedCount := skippedCount + 1;
        }
      }
    }

    /** Asks the tracker to raise the issue of a failing check or to close that of a passing one, and
        saves the finding. Any error of the tracker is logged; only a failed raise makes the check count
        as skipped after all. */
    method ProcessCheckResult(inp: Inputs, j: Job, attempt: nat) returns (skipped: bool, asked: Ask, logged: bool)
      requires db.Valid()
      modifies db
      ensures db.Valid()
      ensures skipped == EnsureFails(inp, j, attempt) && asked == AskOf(inp, j, attempt)
      ensures logged <==> AnswerTo(inp, j, asked).IsError()
      ensures db.log == old(db.log) + SaveFor(inp, j, attempt)
    {
      skipped, asked, logged := false, NoAsk, false;
      var result := inp.CheckOf(j, attempt);
      var issue: Option<nat> := None;
      if !result.pass {
        if inp.production {
          asked := RaiseIssue;
          match inp.ensureIssue(j.repo, j.id)
          case Url(n) => issue := Some(n);
          case IssuesUnavailable => logged := true;
          case Failed => skipped, logged := true, true;
          case Nothing =>
        }
      } else {
        if inp.production {
          asked := CloseIssue;
          logged := inp.closeIssue(j.repo, j.id).IsError();
        }
      }
      var key := (j.repo, result.convention);
      var row := Row(result.pass, result.detail, issue, inp.now(j.repo, j.id, attempt));
      var _ := db.SaveFinding(key, row, true, inp.saveOk(key));
    }
  }

  lemma ScopeStep(inp: Inputs, repo: string, convs: seq<Convention>, k: nat)
    requires k < |convs|
    ensures var rest := ScopeFrom(inp, repo, convs[k + 1..]);
            ScopeFrom(inp, repo, convs[k..]) == if inp.Applies(convs[k], repo) then [Job(repo, convs[k].id)] + rest else rest
  {
    assert convs[k..][1..] == convs[k + 1..];
  }

  lemma RunStep(inp: Inputs, j: Job, rest: seq<Job>, attempt: nat, p: Pass)
    ensures RunJobs(inp, [j] + rest, attempt, p) == RunJobs(inp, rest, attempt, RunJob(inp, j, attempt, p))
  {
    assert ([j] + rest)[1..] == rest;
  }
}
