/** The documented rule for failed closes against what the sweep returns. */
module SweepCloses {
  import opened IssueTitles
  import opened IssueTracker
  import opened SmallFleet
  import opened Sweep
  import opened SweepIssues
  import opened SweepResults
  import opened SweepTable

  // ---- The two rules ----

  /** Whether a check that was run counts as skipped. The documented rule counts failed closes too. */
  predicate Skipped(inp: Inputs, c: (Job, nat), documented: bool) {
    if inp.Errs(c.0, c.1) then c.1 == 1
    else EnsureFails(inp, c.0, c.1) || (documented && CloseFails(inp, c.0, c.1))
  }

  function Skips(inp: Inputs, calls: seq<(Job, nat)>, documented: bool): nat {
    if calls == [] then 0
    else (if Skipped(inp, calls[0], documented) then 1 else 0) + Skips(inp, calls[1..], documented)
  }

  /** The result of a sweep under either rule. */
  function ResultBy(inp: Inputs, documented: bool): SweepError {
    var n := Skips(inp, SweepSpec(inp).2, documented);
    if !inp.setupOk then SetupFailed
    else if !TokensRefresh(inp) then TokenExpired
    else if n > 0 then Incomplete(n)
    else Nil
  }

  // ---- What the code does ----

  lemma {:induction false} SkipsConcat(inp: Inputs, a: seq<(Job, nat)>, b: seq<(Job, nat)>, documented: bool)
    ensures Skips(inp, a + b, documented) == Skips(inp, a, documented) + Skips(inp, b, documented)
  {
    hide Skipped;
    if a == [] {
      assert a + b == b;
    } else {
      SkipsConcat(inp, a[1..], b, documented);
      assert (a + b)[1..] == a[1..] + b;
    }
  }

  lemma {:induction false} RunSkips(inp: Inputs, jobs: seq<Job>, attempt: nat, p: Pass)
    requires attempt <= 1
    ensures RunJobs(inp, jobs, attempt, p).skipped == p.skipped + Skips(inp, Calls(jobs, attempt), false)
    decreases |jobs|
  {
    if jobs != [] {
      RunSkips(inp, jobs[1..], attempt, RunJob(inp, jobs[0], attempt, p));
      assert Calls(jobs, attempt)[1..] == Calls(jobs[1..], attempt);
    }
  }

  /** The sweep's result is the one of the rule that leaves failed closes out. */
  lemma CodeLeavesClosesOut(inp: Inputs)
    ensures SweepSpec(inp).0 == ResultBy(inp, false)
  {
    hide RunJobs, FirstPass, Skipped;
    FirstPassIsFlat(inp, inp.repos, FRESH);
    if ReachesEnd(inp) {
      var jobs := Jobs(inp, inp.repos);
      var p := RunJobs(inp, jobs, 0, FRESH);
      RunJobsCalls(inp, jobs, 0, FRESH);
      RunSkips(inp, jobs, 0, FRESH);
      RunJobsCalls(inp, p.pending, 1, p);
      RunSkips(inp, p.pending, 1, p);
      SkipsConcat(inp, Calls(jobs, 0), Calls(p.pending, 1), false);
      assert FRESH.calls + Calls(jobs, 0) == Calls(jobs, 0);
    }
  }

  // ---- When the two rules agree ----

  lemma {:induction false} SkipsDiffer(inp: Inputs, calls: seq<(Job, nat)>)
    ensures Skips(inp, calls, false) <= Skips(inp, calls, true)
    ensures Skips(inp, calls, false) == Skips(inp, calls, true) <==>
            forall c :: c in calls ==> inp.Errs(c.0, c.1) || !CloseFails(inp, c.0, c.1)
  {
    if calls != [] {
      SkipsDiffer(inp, calls[1..]);
      assert calls == [calls[0]] + calls[1..];
    }
  }

  /** An in-scope check of a recorded repo is settled as passing and its close fails. */
  ghost predicate LosesClose(inp: Inputs, j: Job) {
    && j in InScope(inp, inp.repos) && inp.upsertOk(j.repo)
    && Settled(inp, j) && CloseFails(inp, j, FinalAttempt(inp, j))
  }

  /** The sweep returns what is documented if and only if it is cut short or loses no close. */
  lemma DocumentedExactlyWhen(inp: Inputs)
    ensures SweepSpec(inp).0 == ResultBy(inp, true) <==> !ReachesEnd(inp) || !exists j :: LosesClose(inp, j)
  {
    hide SweepSpec, InScope, CloseFails, Skips;
    var calls := SweepSpec(inp).2;
    CodeLeavesClosesOut(inp);
    SkipsDiffer(inp, calls);
    if ReachesEnd(inp) {
      forall j ensures LosesClose(inp, j) <==> SettledIn(inp, j) && CloseFails(inp, j, FinalAttempt(inp, j)) {
        RunExactly(inp, j);
      }
      forall c | c in calls && !inp.Errs(c.0, c.1) ensures c.1 == FinalAttempt(inp, c.0) && SettledIn(inp, c.0) {
        SweepCallsInOrder(inp, c);
      }
      if j :| LosesClose(inp, j) {
        assert (j, FinalAttempt(inp, j)) in calls;
      }
    }
  }

  // ---- What the difference means for the tracker ----

  /** After a sweep in production that returns nil, a passing in-scope check of a recorded repo still has
      an open issue if and only if it had one and the calls to close it took no effect. */
  lemma NilLeavesOpenExactlyWhen(inp: Inputs, issues: seq<Issue>, ids: set<string>, descriptions: string -> string,
      fates: Fates, j: Job)
    requires SweepSpec(inp).0 == Nil && inp.production && Tidy(issues, ids) && |ids| <= PER_PAGE
    requires forall c :: c in SweepSpec(inp).2 && c.0.repo == j.repo ==> c.0.id in ids && ColonFree(c.0.id)
    requires j in InScope(inp, inp.repos) && inp.upsertOk(j.repo) && inp.CheckOf(j, FinalAttempt(inp, j)).pass
    ensures j.id in OpenIds(Run(issues, SweepOps(inp, j.repo, descriptions, fates))) <==>
            j.id in OpenIds(issues) && !Effective(JobOp(inp, j, FinalAttempt(inp, j), descriptions(j.id), fates))
  {
    hide SweepSpec, SweepOps, Tidy, OpenIds, Run, Effective, InScope, FinalAttempt;
    NilMeansAsked(inp, j);
    OpenIssuesExactly(inp, j.repo, issues, ids, descriptions, fates, j.id);
  }

  lemma RefusedClose(inp: Inputs, issues: seq<Issue>, calls: seq<(Job, nat)>, j: Job, descriptions: string -> string, fates: Fates)
    requires calls == [(j, 0)] && Asks(inp, (j, 0), j.repo) && AskOf(inp, j, 0) == CloseIssue
    requires fates(j, 0).0 == Refused && inp.closeIssue(j.repo, j.id) == Failed
    ensures Answered(inp, issues, calls, j.repo, descriptions, fates)
    ensures Run(issues, OpsOf(inp, calls, j.repo, descriptions, fates)) == issues
  {
    var op := CloseOp(j.id, Refused, fates(j, 0).1);
    assert calls[1..] == [] && [op][1..] == [];
    assert OpsOf(inp, calls, j.repo, descriptions, fates) == [op] + OpsOf(inp, [], j.repo, descriptions, fates) == [op];
    assert Answered(inp, Step(issues, op), calls[1..], j.repo, descriptions, fates);
  }

  /** A family: a passing check whose issue is open, on a tracker that refuses to list. The sweep returns
      nil, the documented result is one skip, and the issue stays open. */
  lemma FailedCloseIsSilent(id: string, descriptions: string -> string, fates: Fates)
    requires ColonFree(id) && fates(Job(REPO, id), 0).0 == Refused
    ensures var inp := Fleet(id, CheckResult(id, true, "", false), true, Failed);
            var issues := [Issue(Title(id, descriptions(id)), true, true)];
            && SweepSpec(inp).0 == Nil && ResultBy(inp, true) == Incomplete(1)
            && inp.CheckOf(Job(REPO, id), 0).pass && Answered(inp, issues, SweepSpec(inp).2, REPO, descriptions, fates)
            && id in OpenIds(Run(issues, SweepOps(inp, REPO, descriptions, fates)))
  {
    var inp, j := Fleet(id, CheckResult(id, true, "", false), true, Failed), Job(REPO, id);
    var issues := [Issue(Title(id, descriptions(id)), true, true)];
    FleetSweep(id, id, true, Failed);
    FleetScope(id, CheckResult(id, true, "", false), true, Failed);
    hide SweepSpec, Title, InScope, Run, OpsOf, Answered;
    var calls := SweepSpec(inp).2;
    assert calls == [(j, 0)] && calls[1..] == [];
    assert Skipped(inp, (j, 0), true);
    TitleRoundTrip(id, descriptions(id));
    assert issues[0].Tracked();
    RefusedClose(inp, issues, calls, j, descriptions, fates);
    assert Skips(inp, calls, true) == 1 && ReachesEnd(inp);
  }
}
