/** The dry run: a second implementation of the two-pass algorithm, collecting a report. */
module DryRun {
  import opened Findings
  import opened Sweep
  import opened SweepResults
  import opened SweepTable
  import opened Wrappers

  /** `issue` is the one linked in the findings table; the dry run links none. */
  datatype ConvStatus = ConvStatus(pass: bool, detail: string, skipped: bool, issue: Option<nat>)

  datatype RepoStatus = RepoStatus(repoType: string, conventions: map<string, ConvStatus>, compliant: bool)

  datatype Report = Report(repos: map<string, RepoStatus>, skippedChecks: nat)

  datatype Summary = Summary(totalRepos: nat, compliantRepos: nat, totalViolations: nat)

  datatype Exit = Aborted | Completed

  // ---- What the report must hold ----

  function StatusAt(inp: Inputs, j: Job, attempt: nat): ConvStatus {
    ConvStatus(inp.CheckOf(j, attempt).pass, inp.CheckOf(j, attempt).detail, false, None)
  }

  function FinalStatus(inp: Inputs, j: Job): ConvStatus {
    if Settled(inp, j) then StatusAt(inp, j, FinalAttempt(inp, j)) else ConvStatus(false, "", true, None)
  }

  predicate Wanted(inp: Inputs, j: Job) {
    j in ScopeFrom(inp, j.repo, inp.conventions)
  }

  predicate NoFailure(st: RepoStatus) {
    forall id :: id in st.conventions && !st.conventions[id].skipped ==> st.conventions[id].pass
  }

  ghost predicate VisitedIn(repos: seq<Repo>, name: string) {
    exists r :: r in repos && Active(r) && r.name == name
  }

  /** st holds the final status of exactly the repo's in-scope checks that are settled at once or
      already retried. */
  ghost predicate Reflects(inp: Inputs, repo: string, st: RepoStatus, retried: seq<Job>) {
    && (forall id :: id in st.conventions <==> Wanted(inp, Job(repo, id)) && (!inp.Errs(Job(repo, id), 0) || Job(repo, id) in retried))
    && (forall id :: id in st.conventions ==> st.conventions[id] == FinalStatus(inp, Job(repo, id)))
    && (st.compliant <==> NoFailure(st))
    && st.repoType == inp.TypeOf(repo)
  }

  ghost predicate ReportsAll(inp: Inputs, repos: seq<Repo>, report: map<string, RepoStatus>, retried: seq<Job>) {
    && (forall name :: name in report <==> VisitedIn(repos, name))
    && (forall name :: name in report ==> Reflects(inp, name, report[name], retried))
  }

  // ---- The routine ----

  method RunAuditDryRun(inp: Inputs) returns (exit: Exit, report: Report)
    ensures exit == Aborted <==> !ReachesEnd(inp)
    ensures exit == Completed ==>
              && report.skippedChecks == |Select(inp, IndeterminateTwice, InScope(inp, inp.repos))|
              && ReportsAll(inp, inp.repos, report.repos, Select(inp, Deferred, InScope(inp, inp.repos)))
  {
    exit, report := Aborted, Report(map[], 0);
    if !inp.setupOk { return; }
    var pendingRetries: seq<Job> := [];
    var repos: map<string, RepoStatus> := map[];
    for i := 0 to |inp.repos|
      invariant forall r :: r in inp.repos[..i] && Active(r) ==> inp.tokenOk(r.name)
      invariant pendingRetries == Select(inp, Deferred, InScope(inp, inp.repos[..i]))
      invariant ReportsAll(inp, inp.repos[..i], repos, [])
    {
      var repo := inp.repos[i];
      assert inp.repos[..i + 1] == inp.repos[..i] + [repo];
      DeferredAppend(inp, inp.repos[..i], repo);
      VisitedAppend(inp.repos[..i], repo);
      if repo.archived || repo.fork { continue; }
      if !inp.tokenOk(repo.name) { return; }
      var st, deferred := CheckRepo(inp, repo.name);
      pendingRetries := pendingRetries + deferred;
      repos := repos[repo.name := st];
    }
    assert inp.repos[..|inp.repos|] == inp.repos;
    var skipped;
    repos, skipped := RetryTail(inp, pendingRetries, repos);
    exit, report := Completed, Report(repos, skipped);
    SelectTwice(inp, InScope(inp, inp.repos));
  }

  method CheckRepo(inp: Inputs, repo: string) returns (st: RepoStatus, deferred: seq<Job>)
    ensures deferred == Select(inp, Deferred, ScopeFrom(inp, repo, inp.conventions))
    ensures Reflects(inp, repo, st, [])
  {
    hide Select;
    var convs := inp.conventions;
    assert Select(inp, Deferred, []) == [] by { NothingSelected(inp); }
    st, deferred := RepoStatus(inp.TypeOf(repo), map[], true), [];
    for k := 0 to |convs|
      invariant deferred == Select(inp, Deferred, ScopeFrom(inp, repo, convs[..k]))
      invariant forall id :: id in st.conventions <==>
                  Job(repo, id) in ScopeFrom(inp, repo, convs[..k]) && !inp.Errs(Job(repo, id), 0)
      invariant forall id :: id in st.conventions ==> st.conventions[id] == FinalStatus(inp, Job(repo, id))
      invariant st.compliant <==> NoFailure(st)
      invariant st.repoType == inp.TypeOf(repo)
    {
      var c := convs[k];
      var j := Job(repo, c.id);
      CheckStep(inp, repo, convs, k);
      if !c.AppliesToType(inp.TypeOf(repo)) { continue; }
      if !c.AppliesToRepo(repo) { continue; }
      var result := inp.check(repo, c.id, 0);
      if result.indeterminate {
        deferred := deferred + [j];
        continue;
      }
      st := Record(st, c.id, ConvStatus(result.pass, result.detail, false, None));
    }
    assert convs[..|convs|] == convs;
  }

  /** Enters one settled or skipped check into a repo's status. */
  method Record(st: RepoStatus, id: string, cs: ConvStatus) returns (after: RepoStatus)
    requires st.compliant <==> NoFailure(st)
    requires id in st.conventions ==> st.conventions[id] == cs
    ensures after.conventions == st.conventions[id := cs] && after.repoType == st.repoType
    ensures after.compliant <==> NoFailure(after)
  {
    after := st.(conventions := st.conventions[id := cs]);
    if !cs.skipped && !cs.pass {
      assert id in after.conventions;
      after := after.(compliant := false);
    } else {
      assert NoFailure(st) ==> NoFailure(after);
      if !NoFailure(st) {
        var bad :| bad in st.conventions && !st.conventions[bad].skipped && !st.conventions[bad].pass;
        assert after.conventions[bad] == st.conventions[bad];
      }
    }
  }

  method Update(inp: Inputs, report: map<string, RepoStatus>, retried: seq<Job>, j: Job, cs: ConvStatus)
    returns (after: map<string, RepoStatus>)
    requires ReportsAll(inp, inp.repos, report, retried)
    requires VisitedIn(inp.repos, j.repo) && Wanted(inp, j) && inp.Errs(j, 0) && cs == FinalStatus(inp, j)
    ensures ReportsAll(inp, inp.repos, after, retried + [j])
  {
    var st := Record(report[j.repo], j.id, cs);
    after := report[j.repo := st];
    forall name | name in after ensures Reflects(inp, name, after[name], retried + [j]) {
      assert Reflects(inp, name, report[name], retried);
    }
  }

  method RetryTail(inp: Inputs, pending: seq<Job>, report: map<string, RepoStatus>)
    returns (after: map<string, RepoStatus>, skipped: nat)
    requires pending == Select(inp, Deferred, InScope(inp, inp.repos))
    requires ReportsAll(inp, inp.repos, report, [])
    ensures ReportsAll(inp, inp.repos, after, pending)
    ensures skipped == |Select(inp, IndeterminateTwice, pending)|
  {
    hide InScope, ReportsAll, Reflects, Wanted, VisitedIn;
    after, skipped := report, 0;
    for k := 0 to |pending|
      invariant skipped == |Select(inp, IndeterminateTwice, pending[..k])|
      invariant ReportsAll(inp, inp.repos, after, pending[..k])
    {
      var j := pending[k];
      TailStep(inp, pending, k);
      var result := inp.check(j.repo, j.id, 1);
      if result.indeterminate {
        after := Update(inp, after, pending[..k], j, ConvStatus(false, "", true, None));
        skipped := skipped + 1;
      } else {
        after := Update(inp, after, pending[..k], j, ConvStatus(result.pass, result.detail, false, None));
      }
    }
    assert pending[..|pending|] == pending;
  }

  // ---- Lists of checks ----

  lemma VisitedAppend(repos: seq<Repo>, r: Repo)
    ensures forall name :: VisitedIn(repos + [r], name) <==> VisitedIn(repos, name) || (Active(r) && r.name == name)
  {
    forall name ensures VisitedIn(repos + [r], name) <==> VisitedIn(repos, name) || (Active(r) && r.name == name) {
      assert r in repos + [r];
      if VisitedIn(repos, name) {
        var q :| q in repos && Active(q) && q.name == name;
        assert q in repos + [r];
      }
    }
  }

  lemma CheckStep(inp: Inputs, repo: string, convs: seq<Convention>, k: nat)
    requires k < |convs|
    ensures var before, after := ScopeFrom(inp, repo, convs[..k]), ScopeFrom(inp, repo, convs[..k + 1]);
            var j := Job(repo, convs[k].id);
            && after == (if inp.Applies(convs[k], repo) then before + [j] else before)
            && Select(inp, Deferred, after) ==
               if inp.Applies(convs[k], repo) && inp.Errs(j, 0) then Select(inp, Deferred, before) + [j]
               else Select(inp, Deferred, before)
  {
    var j := Job(repo, convs[k].id);
    assert convs[..k + 1] == convs[..k] + [convs[k]];
    ScopeAppend(inp, repo, convs[..k], convs[k]);
    SelectAppend(inp, Deferred, ScopeFrom(inp, repo, convs[..k]), [j]);
    assert Select(inp, Deferred, [j]) == if inp.Errs(j, 0) then [j] else [];
  }

  lemma TailStep(inp: Inputs, pending: seq<Job>, k: nat)
    requires pending == Select(inp, Deferred, InScope(inp, inp.repos)) && k < |pending|
    ensures var j := pending[k];
            && VisitedIn(inp.repos, j.repo) && Wanted(inp, j) && inp.Errs(j, 0)
            && pending[..k + 1] == pending[..k] + [j]
            && |Select(inp, IndeterminateTwice, pending[..k + 1])|
               == |Select(inp, IndeterminateTwice, pending[..k])| + if inp.Errs(j, 1) then 1 else 0
  {
    hide InScope, ScopeFrom, VisitedIn;
    var j := pending[k];
    SelectExactly(inp, Deferred, InScope(inp, inp.repos), j);
    InScopeVisits(inp, inp.repos, j);
    assert pending[..k + 1] == pending[..k] + [j];
    SelectAppend(inp, IndeterminateTwice, pending[..k], [j]);
    assert Select(inp, IndeterminateTwice, [j]) == if inp.Errs(j, 1) then [j] else [];
  }

  lemma DeferredAppend(inp: Inputs, repos: seq<Repo>, r: Repo)
    ensures Select(inp, Deferred, InScope(inp, repos + [r])) ==
            if Active(r) then Select(inp, Deferred, InScope(inp, repos))
                              + Select(inp, Deferred, ScopeFrom(inp, r.name, inp.conventions))
            else Select(inp, Deferred, InScope(inp, repos))
  {
    InScopeAppend(inp, repos, r);
    SelectAppend(inp, Deferred, InScope(inp, repos), ScopeFrom(inp, r.name, inp.conventions));
  }

  lemma NothingSelected(inp: Inputs)
    ensures Select(inp, Deferred, []) == []
  {
  }

  lemma {:induction false} SelectAppend(inp: Inputs, which: Which, a: seq<Job>, b: seq<Job>)
    ensures Select(inp, which, a + b) == Select(inp, which, a) + Select(inp, which, b)
  {
    hide Which.Picks;
    if a == [] {
      assert a + b == b;
    } else {
      assert (a + b)[1..] == a[1..] + b;
      SelectAppend(inp, which, a[1..], b);
    }
  }

  lemma {:induction false} SelectTwice(inp: Inputs, jobs: seq<Job>)
    ensures Select(inp, IndeterminateTwice, Select(inp, Deferred, jobs)) == Select(inp, IndeterminateTwice, jobs)
  {
    if jobs != [] {
      SelectTwice(inp, jobs[1..]);
      var here := if inp.Errs(jobs[0], 0) then [jobs[0]] else [];
      SelectAppend(inp, IndeterminateTwice, here, Select(inp, Deferred, jobs[1..]));
    }
  }

  lemma {:induction false} ScopeAppend(inp: Inputs, repo: string, convs: seq<Convention>, c: Convention)
    ensures ScopeFrom(inp, repo, convs + [c]) ==
            if inp.Applies(c, repo) then ScopeFrom(inp, repo, convs) + [Job(repo, c.id)] else ScopeFrom(inp, repo, convs)
  {
    if convs != [] {
      assert (convs + [c])[1..] == convs[1..] + [c];
      ScopeAppend(inp, repo, convs[1..], c);
    }
  }

  lemma {:induction false} InScopeAppend(inp: Inputs, repos: seq<Repo>, r: Repo)
    ensures InScope(inp, repos + [r]) ==
            if Active(r) then InScope(inp, repos) + ScopeFrom(inp, r.name, inp.conventions) else InScope(inp, repos)
  {
    if repos != [] {
      assert (repos + [r])[1..] == repos[1..] + [r];
      InScopeAppend(inp, repos[1..], r);
    }
  }

  lemma {:induction false} InScopeVisits(inp: Inputs, repos: seq<Repo>, j: Job)
    ensures j in InScope(inp, repos) <==> Wanted(inp, j) && VisitedIn(repos, j.repo)
  {
    if repos != [] {
      InScopeVisits(inp, repos[1..], j);
      ScopeNamesRepo(inp, repos[0].name, inp.conventions, j);
      assert repos == [repos[0]] + repos[1..];
    }
  }

  lemma {:induction false} AllUpsertsKeepJobs(inp: Inputs, repos: seq<Repo>)
    requires forall name :: inp.upsertOk(name)
    ensures Jobs(inp, repos) == InScope(inp, repos)
  {
    if repos != [] {
      AllUpsertsKeepJobs(inp, repos[1..]);
    }
  }

  // ---- Agreement with the production sweep ----

  ghost predicate WritesSucceed(inp: Inputs) {
    (forall name :: inp.upsertOk(name)) && (forall k :: inp.saveOk(k))
  }

  /** The row and the entry hold the same verdict and detail. */
  predicate SameResult(row: Row, cs: ConvStatus) {
    row.pass == cs.pass && row.detail == cs.detail
  }

  predicate HasEntry(report: map<string, RepoStatus>, k: Key) {
    k.0 in report && k.1 in report[k.0].conventions && !report[k.0].conventions[k.1].skipped
  }

  /** The non-skipped entries are those of the settled in-scope checks, under their own IDs, and each
      has the verdict and detail of the row that the sweep saves for it. */
  lemma EntriesAreFinalResults(inp: Inputs, report: map<string, RepoStatus>, k: Key)
    requires ReportsAll(inp, inp.repos, report, Select(inp, Deferred, InScope(inp, inp.repos)))
    ensures HasEntry(report, k) <==> Job(k.0, k.1) in InScope(inp, inp.repos) && Settled(inp, Job(k.0, k.1))
    ensures HasEntry(report, k) ==>
              var cs := report[k.0].conventions[k.1];
              cs == FinalStatus(inp, Job(k.0, k.1)) && SameResult(FinalSave(inp, Job(k.0, k.1)).row, cs)
  {
    var j := Job(k.0, k.1);
    InScopeVisits(inp, inp.repos, j);
    SelectExactly(inp, Deferred, InScope(inp, inp.repos), j);
    if k.0 in report {
      assert Reflects(inp, k.0, report[k.0], Select(inp, Deferred, InScope(inp, inp.repos)));
    }
  }

  /** Check by check the two implementations agree, whatever IDs checks report: the dry run enters the
      result under the check's own ID, the sweep saves the same result under the reported one. */
  lemma EveryCheckAgrees(inp: Inputs, report: map<string, RepoStatus>, j: Job)
    requires ReachesEnd(inp) && WritesSucceed(inp)
    requires ReportsAll(inp, inp.repos, report, Select(inp, Deferred, InScope(inp, inp.repos)))
    requires j in InScope(inp, inp.repos) && Settled(inp, j)
    ensures HasEntry(report, (j.repo, j.id))
    ensures var e := FinalSave(inp, j);
              e in SweepSpec(inp).1 && e.key == FinalKey(inp, j) && SameResult(e.row, report[j.repo].conventions[j.id])
  {
    hide SweepSpec, ReportsAll, InScope, HasEntry;
    EntriesAreFinalResults(inp, report, (j.repo, j.id));
    assert Writes(inp, j, FinalKey(inp, j));
    ReachedWrites(inp, j, FinalKey(inp, j));
    EntryIsThere(report, (j.repo, j.id));
  }

  lemma EntryIsThere(report: map<string, RepoStatus>, k: Key)
    requires HasEntry(report, k)
    ensures k.0 in report && k.1 in report[k.0].conventions
  {
  }

  /** The keys under which the dry run enters the settled in-scope checks, and those they report. */
  ghost function OwnKeys(inp: Inputs): set<Key> {
    set j | j in InScope(inp, inp.repos) && Settled(inp, j) :: (j.repo, j.id)
  }

  ghost function ReportedKeys(inp: Inputs): set<Key> {
    set j | j in InScope(inp, inp.repos) && Settled(inp, j) :: FinalKey(inp, j)
  }

  /** Both implementations skip the same checks. On the same repos, types and answers the non-skipped
      entries have the keys of the saved findings exactly when the settled checks report, all told, the
      set of their own IDs. */
  lemma DryRunAgreesWithSweep(inp: Inputs, report: map<string, RepoStatus>)
    requires ReachesEnd(inp) && WritesSucceed(inp)
    requires ReportsAll(inp, inp.repos, report, Select(inp, Deferred, InScope(inp, inp.repos)))
    ensures (forall k :: HasEntry(report, k) <==> Saves(SweepSpec(inp).1, k)) <==> OwnKeys(inp) == ReportedKeys(inp)
    ensures |Select(inp, IndeterminateTwice, InScope(inp, inp.repos))| == |Select(inp, IndeterminateTwice, Jobs(inp, inp.repos))|
  {
    hide SweepSpec, ReportsAll, HasEntry, Saves, OwnKeys, ReportedKeys;
    AllUpsertsKeepJobs(inp, inp.repos);
    forall k
      ensures HasEntry(report, k) <==> k in OwnKeys(inp)
      ensures Saves(SweepSpec(inp).1, k) <==> k in ReportedKeys(inp)
    {
      EntriesAreFinalResults(inp, report, k);
      KeysExactly(inp, k);
    }
  }

  lemma KeysExactly(inp: Inputs, k: Key)
    requires ReachesEnd(inp) && WritesSucceed(inp)
    ensures k in OwnKeys(inp) <==> Job(k.0, k.1) in InScope(inp, inp.repos) && Settled(inp, Job(k.0, k.1))
    ensures k in ReportedKeys(inp) <==> exists j :: Writes(inp, j, k)
    ensures Saves(SweepSpec(inp).1, k) <==> k in ReportedKeys(inp)
  {
    hide SweepSpec, InScope, Saves, FinalKey, Settled;
    RowsFollowReportedIds(inp, k);
    if k in OwnKeys(inp) {
      var j :| j in InScope(inp, inp.repos) && Settled(inp, j) && k == (j.repo, j.id);
      assert j == Job(k.0, k.1);
    }
    if k in ReportedKeys(inp) {
      var j :| j in InScope(inp, inp.repos) && Settled(inp, j) && k == FinalKey(inp, j);
      assert Writes(inp, j, k);
    }
    if j :| Writes(inp, j, k) {
      assert FinalKey(inp, j) in ReportedKeys(inp);
    }
  }

  /** A check that reports another settled check's ID gives the same verdict and detail. */
  ghost predicate SwapsAgree(inp: Inputs) {
    forall i, j ::
      && i in InScope(inp, inp.repos) && j in InScope(inp, inp.repos) && Settled(inp, i) && Settled(inp, j)
      && FinalKey(inp, i) == (j.repo, j.id)
      ==> SameResult(FinalSave(inp, i).row, FinalStatus(inp, j))
  }

  /** The entry and the saved row of a key are both there or both missing, with the same result. */
  ghost predicate SameEntry(report: map<string, RepoStatus>, own: seq<Event>, k: Key) {
    && (HasEntry(report, k) <==> Saves(own, k))
    && (HasEntry(report, k) ==> SameResult(LastSaved(own, k).value, report[k.0].conventions[k.1]))
  }

  /** Entries and findings are equal, results included, exactly when besides no two settled checks with
      different results trade IDs. */
  lemma ResultsAgreeExactlyWhen(inp: Inputs, report: map<string, RepoStatus>)
    requires ReachesEnd(inp) && WritesSucceed(inp) && Apart(inp)
    requires ReportsAll(inp, inp.repos, report, Select(inp, Deferred, InScope(inp, inp.repos)))
    ensures (forall k :: SameEntry(report, SweepSpec(inp).1, k)) <==> OwnKeys(inp) == ReportedKeys(inp) && SwapsAgree(inp)
  {
    hide SweepSpec, ReportsAll, HasEntry, Saves, OwnKeys, ReportedKeys, InScope, FinalKey, RowFor, LastSaved, Settled;
    var own := SweepSpec(inp).1;
    DryRunAgreesWithSweep(inp, report);
    if OwnKeys(inp) == ReportedKeys(inp) && SwapsAgree(inp) {
      forall k ensures SameEntry(report, own, k) {
        if HasEntry(report, k) {
          EntriesAreFinalResults(inp, report, k);
          KeysExactly(inp, k);
          SwappedEntry(inp, report, k);
        }
      }
    }
    if forall k :: SameEntry(report, own, k) {
      forall k ensures HasEntry(report, k) <==> Saves(own, k) {
        assert SameEntry(report, own, k);
      }
      forall i, j | i in InScope(inp, inp.repos) && j in InScope(inp, inp.repos) && Settled(inp, i) && Settled(inp, j)
        && FinalKey(inp, i) == (j.repo, j.id)
        ensures SameResult(FinalSave(inp, i).row, FinalStatus(inp, j))
      {
        var k := (j.repo, j.id);
        assert SameEntry(report, own, k);
        SavedBy(inp, i, k);
        EntriesAreFinalResults(inp, report, k);
        assert j == Job(k.0, k.1);
      }
    }
  }

  /** Where in-scope checks report different keys, the row saved under i's key is i's. */
  lemma SavedBy(inp: Inputs, i: Job, k: Key)
    requires ReachesEnd(inp) && WritesSucceed(inp) && Apart(inp)
    requires i in InScope(inp, inp.repos) && Settled(inp, i) && FinalKey(inp, i) == k
    ensures Saves(SweepSpec(inp).1, k) && LastSaved(SweepSpec(inp).1, k).value == FinalSave(inp, i).row
  {
    hide SweepSpec, InScope, FinalKey, RowFor, LastSaved, Settled;
    assert Writes(inp, i, k);
    RowsFollowReportedIds(inp, k);
    var j :| Writes(inp, j, k) && LastSaved(SweepSpec(inp).1, k).value == FinalSave(inp, j).row;
    assert i == j;
  }

  lemma SwappedEntry(inp: Inputs, report: map<string, RepoStatus>, k: Key)
    requires ReachesEnd(inp) && WritesSucceed(inp) && Apart(inp) && SwapsAgree(inp)
    requires ReportsAll(inp, inp.repos, report, Select(inp, Deferred, InScope(inp, inp.repos)))
    requires HasEntry(report, k) && k in ReportedKeys(inp)
    ensures SameEntry(report, SweepSpec(inp).1, k)
  {
    hide SweepSpec, ReportsAll, HasEntry, InScope, FinalKey, RowFor, LastSaved, Settled;
    var i :| i in InScope(inp, inp.repos) && Settled(inp, i) && k == FinalKey(inp, i);
    SavedBy(inp, i, k);
    EntriesAreFinalResults(inp, report, k);
    assert SameResult(FinalSave(inp, i).row, FinalStatus(inp, Job(k.0, k.1)));
  }

  lemma FinalsAgree(inp: Inputs, j: Job)
    requires Settled(inp, j)
    ensures SameResult(FinalSave(inp, j).row, FinalStatus(inp, j))
  {
  }

  /** So they are equal where every in-scope check reports its own ID. */
  lemma OwnIdsAgree(inp: Inputs, report: map<string, RepoStatus>, k: Key)
    requires ReachesEnd(inp) && WritesSucceed(inp)
    requires forall j :: j in InScope(inp, inp.repos) ==> FinalKey(inp, j) == (j.repo, j.id)
    requires ReportsAll(inp, inp.repos, report, Select(inp, Deferred, InScope(inp, inp.repos)))
    ensures SameEntry(report, SweepSpec(inp).1, k)
  {
    hide SweepSpec, ReportsAll, InScope, FinalKey, RowFor, SameEntry, Settled;
    assert OwnKeys(inp) == ReportedKeys(inp);
    assert Apart(inp);
    forall j | j in InScope(inp, inp.repos) && Settled(inp, j) ensures SameResult(FinalSave(inp, j).row, FinalStatus(inp, j)) {
      FinalsAgree(inp, j);
    }
    ResultsAgreeExactlyWhen(inp, report);
  }

  // ---- The report, in the fields of what the dry run meets ----

  /** The entry of a check: the answer's verdict and detail, from the second attempt if the first was
      indeterminate, or a mark that it was skipped if both were. */
  ghost predicate Enters(inp: Inputs, repo: string, id: string, cs: ConvStatus) {
    var first, second := inp.check(repo, id, 0), inp.check(repo, id, 1);
    var r := if first.indeterminate then second else first;
    && cs.issue == None
    && (cs.skipped <==> first.indeterminate && second.indeterminate)
    && (cs.skipped ==> !cs.pass && cs.detail == "")
    && (!cs.skipped ==> cs.pass == r.pass && cs.detail == r.detail)
  }

  /** The finished report has every repo that is neither archived nor a fork, with its type and one entry
      for each check in scope; a repo is compliant exactly if no entry that was not skipped fails. */
  lemma ReportExactly(inp: Inputs, report: map<string, RepoStatus>, name: string)
    requires ReportsAll(inp, inp.repos, report, Select(inp, Deferred, InScope(inp, inp.repos)))
    ensures name in report <==> exists r :: r in inp.repos && r.name == name && !r.archived && !r.fork
    ensures name in report ==>
      var st := report[name];
      && st.repoType == (if name in inp.types then inp.types[name] else "unconfigured")
      && (forall id :: id in st.conventions <==> Job(name, id) in InScope(inp, inp.repos))
      && (forall id :: id in st.conventions ==> Enters(inp, name, id, st.conventions[id]))
      && (st.compliant <==> forall id :: id in st.conventions && !st.conventions[id].skipped ==> st.conventions[id].pass)
  {
    hide InScope;
    assert UNCONFIGURED == "unconfigured";
    if name in report {
      var st := report[name];
      assert Reflects(inp, name, st, Select(inp, Deferred, InScope(inp, inp.repos)));
      forall id ensures id in st.conventions <==> Job(name, id) in InScope(inp, inp.repos) {
        var j := Job(name, id);
        InScopeVisits(inp, inp.repos, j);
        SelectExactly(inp, Deferred, InScope(inp, inp.repos), j);
      }
    }
  }
}
