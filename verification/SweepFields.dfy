/** What a sweep does, in the fields of what it meets. */
module SweepFields {
  import opened Findings
  import opened IssueTracker
  import opened Sweep
  import opened SweepCloses
  import opened SweepIssues
  import opened SweepResults
  import opened SweepTable
  import opened Wrappers

  /** The check's answer that counts: the second one if the first is indeterminate. */
  function FinalAnswer(inp: Inputs, j: Job): CheckResult {
    if inp.check(j.repo, j.id, 0).indeterminate then inp.check(j.repo, j.id, 1) else inp.check(j.repo, j.id, 0)
  }

  /** The check cannot be settled, or, in production, its failure cannot be raised. */
  predicate Hampered(inp: Inputs, j: Job) {
    var r := FinalAnswer(inp, j);
    r.indeterminate || (inp.production && !r.pass && inp.ensureIssue(j.repo, j.id) == Failed)
  }

  /** In scope, on a repo that could be recorded. */
  ghost predicate Due(inp: Inputs, j: Job) {
    j in InScope(inp, inp.repos) && inp.upsertOk(j.repo)
  }

  /** Nothing stops the sweep early: its setup succeeds, and so does the token refresh of every repo that
      is neither archived nor a fork. */
  ghost predicate Unstopped(inp: Inputs) {
    inp.setupOk && forall r :: r in inp.repos && !r.archived && !r.fork ==> inp.tokenOk(r.name)
  }

  lemma UnstoppedReachesEnd(inp: Inputs)
    ensures Unstopped(inp) <==> ReachesEnd(inp)
  {
  }

  /** A sweep runs every due check once, and a second time exactly after a first indeterminate answer. */
  lemma RunsExactly(inp: Inputs, j: Job, attempt: nat)
    requires Unstopped(inp)
    ensures (j, attempt) in SweepSpec(inp).2 <==>
      Due(inp, j) && (attempt == 0 || (attempt == 1 && inp.check(j.repo, j.id, 0).indeterminate))
  {
    hide RunJobs, FirstPass, InScope, Jobs, SweepSpec;
    UnstoppedReachesEnd(inp);
    var jobs := Jobs(inp, inp.repos);
    SweepSummary(inp);
    JobsExactly(inp, inp.repos, j);
    SelectExactly(inp, Deferred, jobs, j);
    CallsHave(jobs, 0, (j, attempt));
    CallsHave(Select(inp, Deferred, jobs), 1, (j, attempt));
  }

  /** The error says what stopped the sweep, or that it skipped something: it returns nil exactly when
      nothing stops it and no due check is hampered. */
  lemma ResultExactly(inp: Inputs)
    ensures SweepSpec(inp).0 == SetupFailed <==> !inp.setupOk
    ensures SweepSpec(inp).0 == TokenExpired <==>
      inp.setupOk && exists r :: r in inp.repos && !r.archived && !r.fork && !inp.tokenOk(r.name)
    ensures SweepSpec(inp).0 == Nil <==> Unstopped(inp) && forall j :: Due(inp, j) ==> !Hampered(inp, j)
    ensures SweepSpec(inp).0.Incomplete? ==> SweepSpec(inp).0.skipped > 0
  {
    hide RunJobs, FirstPass, SweepSpec, InScope, Hampered;
    CodeLeavesClosesOut(inp);
    UnstoppedReachesEnd(inp);
    if Unstopped(inp) {
      var calls := SweepSpec(inp).2;
      SkipsSome(inp, calls);
      if c :| c in calls && Skipped(inp, c, false) {
        assert (c.0, c.1) in calls && Skipped(inp, (c.0, c.1), false);
        SkippedExactly(inp, c.0);
      }
      if j :| Due(inp, j) && Hampered(inp, j) {
        SkippedExactly(inp, j);
      }
    }
  }

  lemma SkippedExactly(inp: Inputs, j: Job)
    requires Unstopped(inp)
    ensures (exists a :: (j, a) in SweepSpec(inp).2 && Skipped(inp, (j, a), false)) <==> Due(inp, j) && Hampered(inp, j)
  {
    hide SweepSpec, InScope;
    RunsExactly(inp, j, 0);
    RunsExactly(inp, j, 1);
    forall a: nat | (j, a) in SweepSpec(inp).2 ensures a <= 1 {
      RunsExactly(inp, j, a);
    }
    if Due(inp, j) && Hampered(inp, j) {
      var a := if inp.check(j.repo, j.id, 0).indeterminate then 1 else 0;
      assert Skipped(inp, (j, a), false);
    }
  }

  lemma {:induction false} SkipsSome(inp: Inputs, calls: seq<(Job, nat)>)
    ensures Skips(inp, calls, false) > 0 <==> exists c :: c in calls && Skipped(inp, c, false)
  {
    hide Skipped;
    if calls != [] {
      SkipsSome(inp, calls[1..]);
      assert calls == [calls[0]] + calls[1..];
    }
  }

  /** The row of a check: under the ID the answer reports, with the answer's verdict and detail, the time
      of that attempt, and, for a failure in production, the issue the tracker named. */
  ghost predicate SavesResult(inp: Inputs, j: Job, e: Event) {
    var r := FinalAnswer(inp, j);
    && e.Save? && e.bySweep && !r.indeterminate
    && e.key == (j.repo, r.convention) && inp.saveOk(e.key)
    && e.row.pass == r.pass && e.row.detail == r.detail
    && e.row.updatedAt == inp.now(j.repo, j.id, if inp.check(j.repo, j.id, 0).indeterminate then 1 else 0)
    && e.row.issue ==
       if inp.production && !r.pass && inp.ensureIssue(j.repo, j.id).Url? then Some(inp.ensureIssue(j.repo, j.id).number) else None
  }

  /** A sweep that nothing stops commits exactly the rows of its settled due checks, and, after a nil
      result, the purge with its start as the cutoff. */
  lemma CommitsExactly(inp: Inputs, e: Event)
    requires Unstopped(inp)
    ensures e in SweepSpec(inp).1 <==>
      || (exists j :: Due(inp, j) && SavesResult(inp, j, e))
      || (SweepSpec(inp).0 == Nil && inp.purgeOk && e == Purge(inp.start))
  {
    hide SweepSpec, InScope, Jobs, RunJobs, FirstPass;
    UnstoppedReachesEnd(inp);
    if e in SweepSpec(inp).1 {
      SweepWritesOwn(inp, e);
      if j :| e.Save? && Writes(inp, j, e.key) && e == FinalSave(inp, j) {
        assert SavesResult(inp, j, e);
      }
    }
    if j :| Due(inp, j) && SavesResult(inp, j, e) {
      assert e == FinalSave(inp, j);
      ReachedWrites(inp, j, e.key);
    }
    if SweepSpec(inp).0 == Nil && inp.purgeOk {
      SuccessPurges(inp);
    }
  }
}
