/** The on-demand rerun of checks, which writes to the findings table beside a running sweep. */
module Rerun {
  import opened Findings
  import opened Sweep
  import opened Wrappers

  /** What a rerun works on: the repos to check, the types and issue links in the report, the types in
      configy (None when they could not be fetched), the check answers, and the clock. */
  datatype Request = Request(
    repos: seq<string>,
    only: Option<string>,
    reportedTypes: map<string, string>,
    liveTypes: Option<map<string, string>>,
    issues: map<Key, nat>,
    conventions: seq<Convention>,
    check: (string, string) -> CheckResult,
    saveOk: Key -> bool,
    now: (string, string) -> int)
  {
    /** A repo missing from configy is unconfigured; without configy the report's type stands. */
    function TypeOf(repo: string): string {
      if liveTypes.Some? then
        if repo in liveTypes.value then liveTypes.value[repo] else UNCONFIGURED
      else if repo in reportedTypes then reportedTypes[repo]
      else ""
    }

    predicate Wanted(c: Convention, repo: string) {
      (only.Some? ==> only.value == c.id) && c.AppliesToType(TypeOf(repo)) && c.AppliesToRepo(repo)
    }

    /** The issue that the report links to the finding. */
    function LinkOf(repo: string, id: string): Option<nat> {
      if (repo, id) in issues then Some(issues[(repo, id)]) else None
    }
  }

  datatype Answer = Passed | Failing(issue: Option<nat>) | Errored

  /** The statement, if any, that one check of a rerun commits. */
  function RerunSave(req: Request, repo: string, id: string): seq<Event> {
    var r := req.check(repo, id);
    if r.indeterminate || !req.saveOk((repo, r.convention)) then []
    else
      var issue := if r.pass then None else req.LinkOf(repo, id);
      [Save((repo, r.convention), Row(r.pass, r.detail, issue, req.now(repo, id)), false)]
  }

  function RepoSaves(req: Request, repo: string, convs: seq<Convention>): seq<Event> {
    if convs == [] then []
    else (if req.Wanted(convs[0], repo) then RerunSave(req, repo, convs[0].id) else []) + RepoSaves(req, repo, convs[1..])
  }

  function RerunSaves(req: Request, repos: seq<string>): seq<Event> {
    if repos == [] then [] else RepoSaves(req, repos[0], req.conventions) + RerunSaves(req, repos[1..])
  }

  /** What is reported of a check: an error exactly when it is indeterminate, and for a failure the issue
      the report links. */
  ghost predicate Reports(req: Request, repo: string, id: string, answer: Answer) {
    var r := req.check(repo, id);
    && (answer.Errored? <==> r.indeterminate)
    && (answer.Passed? <==> !r.indeterminate && r.pass)
    && (answer.Failing? ==> answer.issue == if (repo, id) in req.issues then Some(req.issues[(repo, id)]) else None)
  }

  method RerunRepos(db: FindingsTable, req: Request) returns (results: map<string, map<string, Answer>>)
    requires db.Valid()
    modifies db
    ensures db.Valid() && db.log == old(db.log) + RerunSaves(req, req.repos)
    ensures forall repo :: repo in results <==> repo in req.repos && AnyWanted(req, repo)
    ensures forall repo :: repo in results ==> Answers(req, repo, results[repo])
  {
    hide RepoSaves, Request.Wanted, Reports;
    results := map[];
    ghost var log := db.log;
    for i := 0 to |req.repos|
      invariant db.Valid()
      invariant db.log + RerunSaves(req, req.repos[i..]) == log + RerunSaves(req, req.repos)
      invariant forall repo :: repo in results <==> repo in req.repos[..i] && AnyWanted(req, repo)
      invariant forall repo :: repo in results ==> Answers(req, repo, results[repo])
    {
      hide AnyWanted, Answers;
      assert req.repos[i..][1..] == req.repos[i + 1..];
      var repo := req.repos[i];
      assert req.repos[..i + 1] == req.repos[..i] + [repo];
      var checks, hasAnyCheck := RerunRepo(db, req, repo);
      if hasAnyCheck {
        results := results[repo := checks];
      }
    }
  }

  ghost predicate AnyWanted(req: Request, repo: string) {
    exists c :: c in req.conventions && req.Wanted(c, repo)
  }

  /** Exactly the wanted checks are answered, each with what the check said. */
  ghost predicate Answers(req: Request, repo: string, checks: map<string, Answer>) {
    && (forall id :: id in checks <==> exists c :: c in req.conventions && c.id == id && req.Wanted(c, repo))
    && (forall id :: id in checks ==> Reports(req, repo, id, checks[id]))
  }

  method RerunRepo(db: FindingsTable, req: Request, repo: string) returns (checks: map<string, Answer>, hasAnyCheck: bool)
    requires db.Valid()
    modifies db
    ensures db.Valid() && db.log == old(db.log) + RepoSaves(req, repo, req.conventions)
    ensures hasAnyCheck <==> AnyWanted(req, repo)
    ensures Answers(req, repo, checks)
  {
    hide Reports, Request.Wanted, RerunSave;
    checks, hasAnyCheck := map[], false;
    ghost var log := db.log;
    for k := 0 to |req.conventions|
      invariant db.Valid()
      invariant db.log + RepoSaves(req, repo, req.conventions[k..]) == log + RepoSaves(req, repo, req.conventions)
      invariant hasAnyCheck <==> exists c :: c in req.conventions[..k] && req.Wanted(c, repo)
      invariant forall id :: id in checks <==> exists c :: c in req.conventions[..k] && c.id == id && req.Wanted(c, repo)
      invariant forall id :: id in checks ==> Reports(req, repo, id, checks[id])
    {
      var convs, c := req.conventions, req.conventions[k];
      assert convs[k..][1..] == convs[k + 1..];
      assert convs[..k + 1] == convs[..k] + [c];
      var wanted := IsWanted(req, c, repo);
      if !wanted { continue; }
      hasAnyCheck := true;
      var answer := RerunCheck(db, req, repo, c.id);
      checks := checks[c.id := answer];
    }
  }

  /** The three filters. */
  method IsWanted(req: Request, c: Convention, repo: string) returns (wanted: bool)
    ensures wanted <==> req.Wanted(c, repo)
  {
    if req.only.Some? && c.id != req.only.value { return false; }
    if !c.AppliesToType(req.TypeOf(repo)) { return false; }
    if !c.AppliesToRepo(repo) { return false; }
    wanted := true;
  }

  /** The save rule: an indeterminate answer is reported but not written. */
  method RerunCheck(db: FindingsTable, req: Request, repo: string, id: string) returns (answer: Answer)
    requires db.Valid()
    modifies db
    ensures db.Valid() && db.log == old(db.log) + RerunSave(req, repo, id)
    ensures Reports(req, repo, id, answer)
  {
    var r := req.check(repo, id);
    answer := if r.indeterminate then Errored else if r.pass then Passed else Failing(req.LinkOf(repo, id));
    if !r.indeterminate {
      var issue: Option<nat> := None;
      if !r.pass {
        issue := req.LinkOf(repo, id);
      }
      var key := (repo, r.convention);
      var _ := db.SaveFinding(key, Row(r.pass, r.detail, issue, req.now(repo, id)), false, req.saveOk(key));
    }
  }

  // ---- What a rerun does, in its request's own fields ----

  /** A check is wanted exactly when the filter, if any, names it, it lists the repo's type or none, and it
      does not exclude the repo; the type is configy's, "unconfigured" if configy has none, and the
      report's when configy could not be asked. */
  lemma WantedExactly(req: Request, c: Convention, repo: string)
    ensures req.Wanted(c, repo) <==>
      var repoType :=
        match req.liveTypes
        case Some(live) => if repo in live then live[repo] else "unconfigured"
        case None => if repo in req.reportedTypes then req.reportedTypes[repo] else "";
      && (req.only == None || req.only == Some(c.id))
      && (|c.appliesTo| == 0 || repoType in c.appliesTo)
      && repo !in c.excludeRepos
  {
    assert UNCONFIGURED == "unconfigured";
  }

  /** The row that a determinate answer leads to; only a failing one keeps the report's link. */
  ghost predicate SavesAnswer(req: Request, repo: string, id: string, e: Event) {
    var r := req.check(repo, id);
    && e.Save? && !e.bySweep && !r.indeterminate && e.key == (repo, r.convention) && req.saveOk(e.key)
    && e.row.pass == r.pass && e.row.detail == r.detail && e.row.updatedAt == req.now(repo, id)
    && e.row.issue == if !r.pass && (repo, id) in req.issues then Some(req.issues[(repo, id)]) else None
  }

  /** A rerun deletes nothing: its statements are exactly those that save the determinate answers, passing
      or failing, of the wanted checks of its repos, as far as the table takes them. */
  lemma {:induction false} RerunSavesExactly(req: Request, repos: seq<string>, e: Event)
    ensures e in RerunSaves(req, repos) <==>
      exists repo, c :: repo in repos && c in req.conventions && req.Wanted(c, repo) && SavesAnswer(req, repo, c.id, e)
  {
    hide RepoSaves, Request.Wanted, SavesAnswer;
    if repos != [] {
      RepoSavesExactly(req, repos[0], req.conventions, e);
      RerunSavesExactly(req, repos[1..], e);
      assert repos == [repos[0]] + repos[1..];
    }
  }

  lemma {:induction false} RepoSavesExactly(req: Request, repo: string, convs: seq<Convention>, e: Event)
    ensures e in RepoSaves(req, repo, convs) <==>
      exists c :: c in convs && req.Wanted(c, repo) && SavesAnswer(req, repo, c.id, e)
  {
    hide Request.Wanted;
    if convs != [] {
      RepoSavesExactly(req, repo, convs[1..], e);
      assert convs == [convs[0]] + convs[1..];
      assert e in RerunSave(req, repo, convs[0].id) <==> SavesAnswer(req, repo, convs[0].id, e);
    }
  }
}
