/** Accounting of a sweep's checks, and what the findings table holds after it. */
module SweepResults {
  import opened Findings
  import opened Sweep

  // ---- The two passes in closed form ----

  /** What can become of a check over a sweep. */
  datatype Which =
    | SettledFirst | Deferred | SettledInTail | IndeterminateTwice
    | UnraisedFirst // settled in the first pass, but its issue could not be raised
    | UnraisedInTail
  {
    predicate Picks(inp: Inputs, j: Job) {
      match this
      case SettledFirst => !inp.Errs(j, 0)
      case Deferred => inp.Errs(j, 0)
      case SettledInTail => inp.Errs(j, 0) && !inp.Errs(j, 1)
      case IndeterminateTwice => inp.Errs(j, 0) && inp.Errs(j, 1)
      case UnraisedFirst => !inp.Errs(j, 0) && EnsureFails(inp, j, 0)
      case UnraisedInTail => inp.Errs(j, 0) && !inp.Errs(j, 1) && EnsureFails(inp, j, 1)
    }
  }

  function Select(inp: Inputs, which: Which, jobs: seq<Job>): seq<Job> {
    if jobs == [] then []
    else (if which.Picks(inp, jobs[0]) then [jobs[0]] else []) + Select(inp, which, jobs[1..])
  }

  function Calls(jobs: seq<Job>, attempt: nat): seq<(Job, nat)> {
    if jobs == [] then [] else [(jobs[0], attempt)] + Calls(jobs[1..], attempt)
  }

  /** The statements that the settled ones among jobs lead to. */
  function SavesOf(inp: Inputs, jobs: seq<Job>, attempt: nat): seq<Event> {
    if jobs == [] then []
    else (if inp.Errs(jobs[0], attempt) then [] else SaveFor(inp, jobs[0], attempt)) + SavesOf(inp, jobs[1..], attempt)
  }

  lemma {:induction false} FirstAttempts(inp: Inputs, jobs: seq<Job>, p: Pass)
    ensures RunJobs(inp, jobs, 0, p) ==
            Pass(p.saves + SavesOf(inp, jobs, 0), p.pending + Select(inp, Deferred, jobs),
                 p.skipped + |Select(inp, UnraisedFirst, jobs)|, p.calls + Calls(jobs, 0))
    decreases |jobs|
  {
    if jobs != [] {
      FirstAttempts(inp, jobs[1..], RunJob(inp, jobs[0], 0, p));
    }
  }

  lemma {:induction false} SecondAttempts(inp: Inputs, jobs: seq<Job>, p: Pass)
    ensures var tail := Select(inp, Deferred, jobs);
            RunJobs(inp, tail, 1, p) ==
            Pass(p.saves + SavesOf(inp, tail, 1), p.pending,
                 p.skipped + |Select(inp, IndeterminateTwice, jobs)| + |Select(inp, UnraisedInTail, jobs)|,
                 p.calls + Calls(tail, 1))
    decreases |jobs|
  {
    if jobs != [] {
      var j, rest := jobs[0], Select(inp, Deferred, jobs[1..]);
      if inp.Errs(j, 0) {
        assert Select(inp, Deferred, jobs) == [j] + rest;
        RunStep(inp, j, rest, 1, p);
        SecondAttempts(inp, jobs[1..], RunJob(inp, j, 1, p));
      } else {
        assert Select(inp, Deferred, jobs) == rest;
        SecondAttempts(inp, jobs[1..], p);
      }
    }
  }

  lemma {:induction false} RunConcat(inp: Inputs, a: seq<Job>, b: seq<Job>, attempt: nat, p: Pass)
    ensures RunJobs(inp, a + b, attempt, p) == RunJobs(inp, b, attempt, RunJobs(inp, a, attempt, p))
    decreases |a|
  {
    if a == [] {
      assert a + b == b;
    } else {
      assert (a + b)[1..] == a[1..] + b;
      RunConcat(inp, a[1..], b, attempt, RunJob(inp, a[0], attempt, p));
    }
  }

  predicate TokensRefresh(inp: Inputs) {
    forall r :: r in inp.repos && Active(r) ==> inp.tokenOk(r.name)
  }

  /** The first pass is cut short exactly when some active repo's token cannot be refreshed;
      otherwise the nested loops run one flat list of checks. */
  lemma {:induction false} FirstPassIsFlat(inp: Inputs, repos: seq<Repo>, p: Pass)
    ensures FirstPass(inp, repos, p).1 <==> exists r :: r in repos && Active(r) && !inp.tokenOk(r.name)
    ensures !FirstPass(inp, repos, p).1 ==> FirstPass(inp, repos, p).0 == RunJobs(inp, Jobs(inp, repos), 0, p)
    decreases |repos|
  {
    if repos != [] {
      var r := repos[0];
      var here := if Active(r) && inp.upsertOk(r.name) then ScopeFrom(inp, r.name, inp.conventions) else [];
      var next := RunJobs(inp, here, 0, p);
      RunConcat(inp, here, Jobs(inp, repos[1..]), 0, p);
      assert repos == [r] + repos[1..];
      FirstPassIsFlat(inp, repos[1..], next);
    }
  }

  lemma {:induction false} SelectCounts(inp: Inputs, which: Which, jobs: seq<Job>, j: Job)
    ensures multiset(Select(inp, which, jobs))[j] == if which.Picks(inp, j) then multiset(jobs)[j] else 0
  {
    if jobs != [] {
      SelectCounts(inp, which, jobs[1..], j);
      assert jobs == [jobs[0]] + jobs[1..];
    }
  }

  lemma {:induction false} CallsCount(jobs: seq<Job>, attempt: nat, j: Job, a: nat)
    ensures multiset(Calls(jobs, attempt))[(j, a)] == if a == attempt then multiset(jobs)[j] else 0
  {
    if jobs != [] {
      CallsCount(jobs[1..], attempt, j, a);
      assert jobs == [jobs[0]] + jobs[1..];
    }
  }

  // ---- Accounting ----

  ghost predicate ReachesEnd(inp: Inputs) {
    inp.setupOk && TokensRefresh(inp)
  }

  /** A sweep that reaches its end: what it skips, when it succeeds, and what it writes. */
  lemma SweepSummary(inp: Inputs)
    requires ReachesEnd(inp)
    ensures var jobs := Jobs(inp, inp.repos);
            var tail := Select(inp, Deferred, jobs);
            var skipped := |Select(inp, IndeterminateTwice, jobs)| + |Select(inp, UnraisedFirst, jobs)|
                           + |Select(inp, UnraisedInTail, jobs)|;
            var saves := SavesOf(inp, jobs, 0) + SavesOf(inp, tail, 1);
            SweepSpec(inp) == (if skipped == 0 then Nil else Incomplete(skipped),
                               if skipped == 0 && inp.purgeOk then saves + [Purge(inp.start)] else saves,
                               Calls(jobs, 0) + Calls(tail, 1))
  {
    hide RunJobs, FirstPass, Jobs, Select, SavesOf, Calls;
    var jobs := Jobs(inp, inp.repos);
    FirstPassIsFlat(inp, inp.repos, FRESH);
    FirstAttempts(inp, jobs, FRESH);
    var p := RunJobs(inp, jobs, 0, FRESH);
    assert FirstPass(inp, inp.repos, FRESH) == (p, false);
    assert p.pending == Select(inp, Deferred, jobs) && p.saves == SavesOf(inp, jobs, 0) && p.calls == Calls(jobs, 0);
    SecondAttempts(inp, jobs, p);
    var q := RunJobs(inp, p.pending, 1, p);
    assert q.saves + [] == q.saves;
  }

  lemma {:induction false} JobsExactly(inp: Inputs, repos: seq<Repo>, j: Job)
    ensures j in Jobs(inp, repos) <==> j in InScope(inp, repos) && inp.upsertOk(j.repo)
  {
    if repos != [] {
      JobsExactly(inp, repos[1..], j);
      ScopeNamesRepo(inp, repos[0].name, inp.conventions, j);
    }
  }

  lemma {:induction false} ScopeNamesRepo(inp: Inputs, repo: string, convs: seq<Convention>, j: Job)
    ensures j in ScopeFrom(inp, repo, convs) ==> j.repo == repo
  {
    if convs != [] {
      ScopeNamesRepo(inp, repo, convs[1..], j);
    }
  }

  lemma {:induction false} JobsCount(inp: Inputs, repos: seq<Repo>, j: Job)
    ensures multiset(Jobs(inp, repos))[j] == if inp.upsertOk(j.repo) then multiset(InScope(inp, repos))[j] else 0
  {
    hide ScopeFrom;
    if repos != [] {
      JobsCount(inp, repos[1..], j);
      ScopeNamesRepo(inp, repos[0].name, inp.conventions, j);
      assert j in multiset(ScopeFrom(inp, repos[0].name, inp.conventions)) ==> j.repo == repos[0].name;
    }
  }

  /** Every in-scope pair whose repo could be recorded is settled in the first pass, settled in the
      tail, or indeterminate twice, and in one of these only; it is checked once, and a second time
      exactly when the first check erred. A pair whose repo could not be recorded is never checked and
      appears nowhere. */
  lemma EveryPairOnce(inp: Inputs, j: Job, a: nat)
    requires ReachesEnd(inp)
    ensures var jobs := Jobs(inp, inp.repos);
            var n := if inp.upsertOk(j.repo) then multiset(InScope(inp, inp.repos))[j] else 0;
            var first := multiset(Select(inp, SettledFirst, jobs))[j];
            var inTail := multiset(Select(inp, SettledInTail, jobs))[j];
            var never := multiset(Select(inp, IndeterminateTwice, jobs))[j];
            && ((first == n && inTail == never == 0) || (inTail == n && first == never == 0)
                || (never == n && first == inTail == 0))
            && multiset(SweepSpec(inp).2)[(j, a)] == if a == 0 then n else if a == 1 then inTail + never else 0
  {
    hide SweepSpec, FirstPass, RunJobs, Jobs, Select, InScope;
    var jobs := Jobs(inp, inp.repos);
    SelectCounts(inp, SettledFirst, jobs, j);
    SelectCounts(inp, SettledInTail, jobs, j);
    SelectCounts(inp, IndeterminateTwice, jobs, j);
    CallsAccount(inp, j, a);
    JobsCount(inp, inp.repos, j);
  }

  /** An in-scope pair is checked, and so accounted for, exactly when its repo's upsert succeeds. */
  lemma CheckedExactlyWhen(inp: Inputs, j: Job)
    requires ReachesEnd(inp) && j in InScope(inp, inp.repos)
    ensures (j, 0) in SweepSpec(inp).2 <==> inp.upsertOk(j.repo)
  {
    hide SweepSpec, Jobs, InScope, Select;
    EveryPairOnce(inp, j, 0);
    assert multiset(InScope(inp, inp.repos))[j] > 0;
  }

  /** Some active repo that has a check in scope cannot be recorded. */
  ghost predicate DropsRepo(inp: Inputs) {
    exists r :: r in inp.repos && Active(r) && ScopeFrom(inp, r.name, inp.conventions) != [] && !inp.upsertOk(r.name)
  }

  /** All in-scope pairs are accounted for exactly when no active repo with a check in scope fails its
      upsert; the skip count and the result say nothing of it. */
  lemma AllAccountedExactlyWhen(inp: Inputs)
    requires ReachesEnd(inp)
    ensures (forall j :: j in InScope(inp, inp.repos) ==> (j, 0) in SweepSpec(inp).2) <==> !DropsRepo(inp)
  {
    hide SweepSpec, ScopeFrom;
    forall j | j in InScope(inp, inp.repos) ensures (j, 0) in SweepSpec(inp).2 <==> inp.upsertOk(j.repo) {
      CheckedExactlyWhen(inp, j);
    }
    if DropsRepo(inp) {
      var r :| r in inp.repos && Active(r) && ScopeFrom(inp, r.name, inp.conventions) != [] && !inp.upsertOk(r.name);
      var j := ScopeFrom(inp, r.name, inp.conventions)[0];
      ScopeNamesRepo(inp, r.name, inp.conventions, j);
      ScopeInScope(inp, inp.repos, r, j);
    } else {
      forall j | j in InScope(inp, inp.repos) ensures inp.upsertOk(j.repo) {
        InScopeOf(inp, inp.repos, j);
      }
    }
  }

  lemma {:induction false} ScopeInScope(inp: Inputs, repos: seq<Repo>, r: Repo, j: Job)
    requires r in repos && Active(r) && j in ScopeFrom(inp, r.name, inp.conventions)
    ensures j in InScope(inp, repos)
  {
    if r != repos[0] {
      assert repos == [repos[0]] + repos[1..];
      ScopeInScope(inp, repos[1..], r, j);
    }
  }

  lemma {:induction false} InScopeOf(inp: Inputs, repos: seq<Repo>, j: Job)
    requires j in InScope(inp, repos)
    ensures exists r :: r in repos && Active(r) && r.name == j.repo && j in ScopeFrom(inp, r.name, inp.conventions)
  {
    if Active(repos[0]) && j in ScopeFrom(inp, repos[0].name, inp.conventions) {
      ScopeNamesRepo(inp, repos[0].name, inp.conventions, j);
    } else {
      InScopeOf(inp, repos[1..], j);
      assert repos == [repos[0]] + repos[1..];
    }
  }

  // ---- What is in scope ----

  /** The convention's own fields let it run on a repo of this name and type. */
  predicate Admits(c: Convention, name: string, repoType: string) {
    (|c.appliesTo| == 0 || repoType in c.appliesTo) && name !in c.excludeRepos
  }

  lemma {:induction false} ScopeExactly(inp: Inputs, repo: string, convs: seq<Convention>, j: Job)
    ensures j in ScopeFrom(inp, repo, convs) <==>
      j.repo == repo &&
      exists c :: c in convs && c.id == j.id && Admits(c, repo, if repo in inp.types then inp.types[repo] else "unconfigured")
  {
    if convs != [] {
      ScopeExactly(inp, repo, convs[1..], j);
      assert convs == [convs[0]] + convs[1..];
      assert UNCONFIGURED == "unconfigured";
    }
  }

  /** In scope is exactly what the fleet's and the registry's own fields say: a repo that is neither
      archived nor a fork, and a convention that lists the repo's type or no type at all and does not
      exclude the repo; a repo without a type is of type "unconfigured". */
  lemma InScopeExactly(inp: Inputs, repos: seq<Repo>, j: Job)
    ensures j in InScope(inp, repos) <==>
      exists r, c ::
        && r in repos && c in inp.conventions && r.name == j.repo && c.id == j.id
        && !r.archived && !r.fork
        && (|c.appliesTo| == 0 || (if r.name in inp.types then inp.types[r.name] else "unconfigured") in c.appliesTo)
        && r.name !in c.excludeRepos
  {
    InScopeAdmits(inp, repos, j);
  }

  lemma {:induction false} InScopeAdmits(inp: Inputs, repos: seq<Repo>, j: Job)
    ensures j in InScope(inp, repos) <==>
      exists r, c :: r in repos && c in inp.conventions && r.name == j.repo && c.id == j.id && !r.archived && !r.fork
        && Admits(c, r.name, if r.name in inp.types then inp.types[r.name] else "unconfigured")
  {
    hide ScopeFrom, Admits;
    if repos != [] {
      ScopeExactly(inp, repos[0].name, inp.conventions, j);
      InScopeAdmits(inp, repos[1..], j);
      assert repos == [repos[0]] + repos[1..];
    }
  }

  /** With distinct repo names and distinct convention IDs no pair is in scope twice. */
  lemma {:induction false} InScopeOnce(inp: Inputs, repos: seq<Repo>, j: Job)
    requires forall i, k :: 0 <= i < k < |repos| ==> repos[i].name != repos[k].name
    requires forall i, k :: 0 <= i < k < |inp.conventions| ==> inp.conventions[i].id != inp.conventions[k].id
    ensures multiset(InScope(inp, repos))[j] <= 1
  {
    hide ScopeFrom, Admits;
    if repos != [] {
      var here := if Active(repos[0]) then ScopeFrom(inp, repos[0].name, inp.conventions) else [];
      InScopeOnce(inp, repos[1..], j);
      ScopeOnce(inp, repos[0].name, inp.conventions, j);
      assert multiset(InScope(inp, repos)) == multiset(here) + multiset(InScope(inp, repos[1..]));
      ScopeNamesRepo(inp, repos[0].name, inp.conventions, j);
      InScopeExactly(inp, repos[1..], j);
      forall r | r in repos[1..] ensures r.name != repos[0].name {
        var k :| 0 <= k < |repos[1..]| && repos[1..][k] == r;
        assert repos[k + 1] == r;
      }
      assert j in here ==> j.repo == repos[0].name;
    }
  }

  lemma {:induction false} ScopeOnce(inp: Inputs, repo: string, convs: seq<Convention>, j: Job)
    requires forall i, k :: 0 <= i < k < |convs| ==> convs[i].id != convs[k].id
    ensures multiset(ScopeFrom(inp, repo, convs))[j] <= 1
  {
    hide Admits, Inputs.Applies;
    if convs != [] {
      var rest := ScopeFrom(inp, repo, convs[1..]);
      ScopeOnce(inp, repo, convs[1..], j);
      ScopeExactly(inp, repo, convs[1..], j);
      forall c | c in convs[1..] ensures c.id != convs[0].id {
        var k :| 0 <= k < |convs[1..]| && convs[1..][k] == c;
        assert convs[k + 1] == c;
      }
      assert multiset(ScopeFrom(inp, repo, convs)) ==
        multiset(rest) + if inp.Applies(convs[0], repo) then multiset{Job(repo, convs[0].id)} else multiset{};
    }
  }

  lemma CallsAccount(inp: Inputs, j: Job, a: nat)
    requires ReachesEnd(inp)
    ensures var n := multiset(Jobs(inp, inp.repos))[j];
            multiset(SweepSpec(inp).2)[(j, a)] == if a == 0 || (a == 1 && inp.Errs(j, 0)) then n else 0
  {
    hide FirstPass, RunJobs, Jobs, Select;
    var jobs := Jobs(inp, inp.repos);
    var tail := Select(inp, Deferred, jobs);
    SweepSummary(inp);
    var calls := SweepSpec(inp).2;
    assert calls == Calls(jobs, 0) + Calls(tail, 1);
    assert multiset(calls) == multiset(Calls(jobs, 0)) + multiset(Calls(tail, 1));
    SelectCounts(inp, Deferred, jobs, j);
    CallsCount(jobs, 0, j, a);
    CallsCount(tail, 1, j, a);
  }
}
