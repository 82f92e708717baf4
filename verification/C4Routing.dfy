/** Reconciliation of C4 divergences with the open "c4-" issues of every candidate repo. */
module C4Routing {
  import opened IssueTitles
  import opened IssueTracker
  import opened Wrappers

  datatype Divergence = Divergence(repo: string, id: string, message: string)

  const ID_PREFIX: string := "c4-"
  const DESCRIPTION: string := "C4 model divergence"

  /** One repo's issues, and how many API calls have been made so far. */
  datatype Remote = Remote(issues: seq<Issue>, calls: nat)

  function Ids(divs: seq<Divergence>): set<string> {
    set d | d in divs :: d.id
  }

  predicate IsC4(title: string) {
    TAG + ID_PREFIX <= title
  }

  function Matching(page: seq<Listed>): seq<Listed> {
    if page == [] then []
    else (if IsC4(page[0].title) then [page[0]] else []) + Matching(page[1..])
  }

  function Ensure(r: Remote, id: string, script: nat -> Fate): Remote {
    var (after, _, n) := EnsureStep(r.issues, id, DESCRIPTION, script(r.calls), script(r.calls + 1));
    Remote(after, r.calls + n)
  }

  function Close(r: Remote, id: string, script: nat -> Fate): Remote {
    var (after, _, n) := CloseStep(r.issues, id, script(r.calls), script(r.calls + 1));
    Remote(after, r.calls + n)
  }

  function EnsureAll(r: Remote, divs: seq<Divergence>, script: nat -> Fate): Remote
    decreases |divs|
  {
    if divs == [] then r else EnsureAll(Ensure(r, divs[0].id, script), divs[1..], script)
  }

  function CloseAll(r: Remote, snapshot: seq<Listed>, current: set<string>, script: nat -> Fate): Remote
    decreases |snapshot|
  {
    if snapshot == [] then r
    else
      var id := IdFromTitle(snapshot[0].title);
      CloseAll(if id in current then r else Close(r, id, script), snapshot[1..], current, script)
  }

  /** List the open "c4-" issues and close those that are not current. */
  function Reconcile(r: Remote, current: set<string>, script: nat -> Fate): Remote {
    var listed := Remote(r.issues, r.calls + 1);
    if script(r.calls).Good? then CloseAll(listed, Matching(Page(r.issues)), current, script) else listed
  }

  /** One candidate repo: raise the current divergences, then reconcile. */
  function RouteRepo(r: Remote, divs: seq<Divergence>, script: nat -> Fate): Remote {
    Reconcile(EnsureAll(r, divs, script), Ids(divs), script)
  }

  function ForRepo(divs: seq<Divergence>, repo: string): seq<Divergence> {
    if divs == [] then []
    else (if divs[0].repo == repo then [divs[0]] else []) + ForRepo(divs[1..], repo)
  }

  datatype World = World(repos: map<string, seq<Issue>>, calls: nat)

  function RouteOne(w: World, repo: string, divs: seq<Divergence>, script: nat -> Fate): World {
    var r := RouteRepo(Remote(Of(w.repos, repo), w.calls), ForRepo(divs, repo), script);
    World(Put(w.repos, repo, r.issues), r.calls)
  }

  function RouteAll(w: World, order: seq<string>, divs: seq<Divergence>, script: nat -> Fate): World
    decreases |order|
  {
    if order == [] then w else RouteAll(RouteOne(w, order[0], divs, script), order[1..], divs, script)
  }

  /** Every system's own repo, and lucos_loganne. */
  function Candidates(org: string, systems: seq<string>): set<string> {
    (set s | s in systems :: org + "/" + s) + {org + "/lucos_loganne"}
  }

  // ---- The routine itself ----

  /** The two tracker states agree on every other repo. */
  ghost predicate OnlyIn(repo: string, before: map<string, seq<Issue>>, after: map<string, seq<Issue>>) {
    && before.Keys - {repo} == after.Keys - {repo}
    && forall other :: other != repo && other in before ==> other in after && before[other] == after[other]
  }

  lemma OnlyInStep(repo: string, before: map<string, seq<Issue>>, mid: map<string, seq<Issue>>, issues: seq<Issue>)
    requires OnlyIn(repo, before, mid)
    ensures OnlyIn(repo, before, Put(mid, repo, issues))
    ensures Put(mid, repo, issues) == Put(before, repo, issues)
  {
    forall other | other != repo ensures other in before <==> other in mid {
      assert other in before.Keys - {repo} <==> other in mid.Keys - {repo};
    }
  }

  method FindOpenIssuesByIdPrefix(gh: GitHub, repo: string) returns (err: Outcome, matched: seq<Listed>)
    modifies gh
    ensures gh.repos == Put(old(gh.repos), repo, Of(old(gh.repos), repo))
    ensures gh.calls == old(gh.calls) + 1
    ensures gh.script(old(gh.calls)).Good? <==> !err.IsError()
    ensures !err.IsError() ==> matched == Matching(Page(Of(gh.repos, repo)))
  {
    var page;
    err, page := gh.FetchIssuesList(repo);
    matched := [];
    if !err.IsError() {
      matched := SelectC4(page);
    }
  }

  method SelectC4(page: seq<Listed>) returns (matched: seq<Listed>)
    ensures matched == Matching(page)
    ensures forall e :: e in matched <==> e in page && IsC4(e.title)
  {
    matched := [];
    for i := 0 to |page|
      invariant Matching(page) == matched + Matching(page[i..])
      invariant forall e :: e in matched <==> e in page[..i] && IsC4(e.title)
    {
      assert page[i..][1..] == page[i + 1..];
      if IsC4(page[i].title) {
        matched := matched + [page[i]];
      }
    }
  }

  /** `order` is the order in which the candidate set happens to be iterated. */
  method RouteDivergencesToIssues(gh: GitHub, org: string, systems: seq<string>, divs: seq<Divergence>, order: seq<string>)
    requires Enumerates(order, Candidates(org, systems))
    modifies gh
    ensures World(gh.repos, gh.calls) == RouteAll(World(old(gh.repos), old(gh.calls)), order, divs, gh.script)
  {
    hide RouteRepo, ForRepo, Enumerates, Candidates;
    var byRepo := GroupByRepo(divs);
    ghost var start := World(gh.repos, gh.calls);
    for i := 0 to |order|
      invariant RouteAll(World(gh.repos, gh.calls), order[i..], divs, gh.script) == RouteAll(start, order, divs, gh.script)
    {
      assert order[i..][1..] == order[i + 1..];
      var repo := order[i];
      RouteToRepo(gh, repo, if repo in byRepo then byRepo[repo] else []);
    }
  }

  method GroupByRepo(divs: seq<Divergence>) returns (byRepo: map<string, seq<Divergence>>)
    ensures forall r :: ForRepo(divs, r) == if r in byRepo then byRepo[r] else []
  {
    byRepo := map[];
    for i := 0 to |divs|
      invariant forall r :: ForRepo(divs, r) == (if r in byRepo then byRepo[r] else []) + ForRepo(divs[i..], r)
    {
      var d := divs[i];
      ghost var was := byRepo;
      ForRepoStep(divs, i);
      byRepo := byRepo[d.repo := (if d.repo in byRepo then byRepo[d.repo] else []) + [d]];
      hide ForRepo;
      forall r ensures ForRepo(divs, r) == (if r in byRepo then byRepo[r] else []) + ForRepo(divs[i + 1..], r) {
        assert ForRepo(divs, r) == (if r in was then was[r] else []) + ForRepo(divs[i..], r);
      }
    }
  }

  lemma ForRepoStep(divs: seq<Divergence>, i: nat)
    requires i < |divs|
    ensures forall r :: ForRepo(divs[i..], r) == (if divs[i].repo == r then [divs[i]] else []) + ForRepo(divs[i + 1..], r)
  {
    assert divs[i..][1..] == divs[i + 1..];
  }

  method RouteToRepo(gh: GitHub, repo: string, current: seq<Divergence>)
    modifies gh
    ensures var r := RouteRepo(Remote(Of(old(gh.repos), repo), old(gh.calls)), current, gh.script);
            gh.repos == Put(old(gh.repos), repo, r.issues) && gh.calls == r.calls
  {
    ghost var before := gh.repos;
    var currentIds := EnsureCurrent(gh, repo, current);
    ReconcileRepo(gh, repo, currentIds);
    OnlyInStep(repo, before, gh.repos, Of(gh.repos, repo));
  }

  method ReconcileRepo(gh: GitHub, repo: string, currentIds: set<string>)
    modifies gh
    ensures Remote(Of(gh.repos, repo), gh.calls) ==
            Reconcile(Remote(Of(old(gh.repos), repo), old(gh.calls)), currentIds, gh.script)
    ensures OnlyIn(repo, old(gh.repos), gh.repos) && repo in gh.repos
  {
    hide CloseAll, Matching, Page;
    var err, open := FindOpenIssuesByIdPrefix(gh, repo);
    if !err.IsError() {
      CloseStale(gh, repo, open, currentIds);
    }
  }

  method EnsureDivergence(gh: GitHub, repo: string, id: string)
    modifies gh
    ensures Remote(Of(gh.repos, repo), gh.calls) == Ensure(Remote(Of(old(gh.repos), repo), old(gh.calls)), id, gh.script)
    ensures gh.repos == Put(old(gh.repos), repo, Of(gh.repos, repo))
  {
    var _ := gh.EnsureIssueExists(repo, id, DESCRIPTION);
  }

  method CloseStaleIssue(gh: GitHub, repo: string, id: string)
    modifies gh
    ensures Remote(Of(gh.repos, repo), gh.calls) == Close(Remote(Of(old(gh.repos), repo), old(gh.calls)), id, gh.script)
    ensures gh.repos == Put(old(gh.repos), repo, Of(gh.repos, repo))
  {
    var _ := gh.CloseIssueIfOpen(repo, id);
  }

  lemma EnsureAllStep(r: Remote, divs: seq<Divergence>, i: nat, script: nat -> Fate)
    requires i < |divs|
    ensures EnsureAll(r, divs[i..], script) == EnsureAll(Ensure(r, divs[i].id, script), divs[i + 1..], script)
    ensures Ids(divs[..i + 1]) == Ids(divs[..i]) + {divs[i].id}
  {
    assert divs[i..][1..] == divs[i + 1..];
  }

  lemma CloseAllStep(r: Remote, open: seq<Listed>, i: nat, current: set<string>, script: nat -> Fate)
    requires i < |open|
    ensures CloseAll(r, open[i..], current, script) ==
            CloseAll(var id := IdFromTitle(open[i].title);
                     if id in current then r else Close(r, id, script), open[i + 1..], current, script)
  {
    assert open[i..][1..] == open[i + 1..];
  }

  method EnsureCurrent(gh: GitHub, repo: string, current: seq<Divergence>) returns (currentIds: set<string>)
    modifies gh
    ensures currentIds == Ids(current)
    ensures Remote(Of(gh.repos, repo), gh.calls) ==
            EnsureAll(Remote(Of(old(gh.repos), repo), old(gh.calls)), current, gh.script)
    ensures OnlyIn(repo, old(gh.repos), gh.repos)
  {
    ghost var before := gh.repos;
    ghost var end := EnsureAll(Remote(Of(gh.repos, repo), gh.calls), current, gh.script);
    currentIds := {};
    assert current[0..] == current;
    for i := 0 to |current|
      invariant currentIds == Ids(current[..i])
      invariant OnlyIn(repo, before, gh.repos)
      invariant EnsureAll(Remote(Of(gh.repos, repo), gh.calls), current[i..], gh.script) == end
    {
      ghost var mid := gh.repos;
      EnsureAllStep(Remote(Of(mid, repo), gh.calls), current, i, gh.script);
      currentIds := currentIds + {current[i].id};
      EnsureDivergence(gh, repo, current[i].id);
      OnlyInStep(repo, before, mid, Of(gh.repos, repo));
    }
    assert current[..|current|] == current;
  }

  method CloseStale(gh: GitHub, repo: string, open: seq<Listed>, currentIds: set<string>)
    modifies gh
    ensures Remote(Of(gh.repos, repo), gh.calls) ==
            CloseAll(Remote(Of(old(gh.repos), repo), old(gh.calls)), open, currentIds, gh.script)
    ensures OnlyIn(repo, old(gh.repos), gh.repos)
    ensures repo in old(gh.repos) ==> repo in gh.repos
  {
    ghost var before := gh.repos;
    ghost var end := CloseAll(Remote(Of(gh.repos, repo), gh.calls), open, currentIds, gh.script);
    assert open[0..] == open;
    for i := 0 to |open|
      invariant OnlyIn(repo, before, gh.repos)
      invariant repo in before ==> repo in gh.repos
      invariant CloseAll(Remote(Of(gh.repos, repo), gh.calls), open[i..], currentIds, gh.script) == end
    {
      ghost var mid := gh.repos;
      CloseAllStep(Remote(Of(mid, repo), gh.calls), open, i, currentIds, gh.script);
      var id := IdFromTitle(open[i].title);
      if id !in currentIds {
        CloseStaleIssue(gh, repo, id);
        OnlyInStep(repo, before, mid, Of(gh.repos, repo));
      }
    }
  }
}
