/** The issues a sweep leaves open, for all fates of its tracker calls. */
module SweepIssues {
  import opened IssueTitles
  import opened IssueTracker
  import opened Sweep
  import opened SweepResults
  import opened SweepTable

  // ---- What one step does to the set of open IDs ----

  /** The list call is answered and a write, if it comes to one, takes effect. */
  predicate Effective(op: Op) {
    op.list.Good? && (op.write.Good? || op.write.Lost?)
  }

  lemma AddOpensId(issues: seq<Issue>, id: string, description: string)
    requires ColonFree(id)
    ensures OpenIds(issues + [Issue(Title(id, description), true, true)]) == OpenIds(issues) + {id}
  {
    TitleRoundTrip(id, description);
    var after := issues + [Issue(Title(id, description), true, true)];
    OpenIdsOfLast(after);
    assert after[..|after| - 1] == issues;
  }

  lemma CloseDropsId(issues: seq<Issue>, n: nat)
    requires OnePerId(issues) && n < |issues| && issues[n].Tracked()
    ensures OpenIds(issues[n := issues[n].(open := false)]) == OpenIds(issues) - {IdFromTitle(issues[n].title)}
  {
    hide IdFromTitle;
    var id := IdFromTitle(issues[n].title);
    var after := issues[n := issues[n].(open := false)];
    forall x | x in OpenIds(issues) && x != id ensures x in OpenIds(after) {
      var i :| 0 <= i < |issues| && issues[i].Tracked() && IdFromTitle(issues[i].title) == x;
      assert after[i] == issues[i];
    }
    forall x | x in OpenIds(after) ensures x in OpenIds(issues) && x != id {
      var i :| 0 <= i < |after| && after[i].Tracked() && IdFromTitle(after[i].title) == x;
      assert after[i] == issues[i] && i != n;
    }
  }

  /** Whether an ID is open after op, its own step. */
  predicate OpenAfter(op: Op, wasOpen: bool) {
    if op.EnsureOp? then wasOpen || Effective(op) else wasOpen && !Effective(op)
  }

  /** A step concerns its own ID only: an Ensure opens it unless it is not effective, a Close closes it
      unless it is not effective. */
  lemma StepSetsItsId(issues: seq<Issue>, op: Op, ids: set<string>)
    requires Tidy(issues, ids) && |ids| <= PER_PAGE && op.id in ids && ColonFree(op.id)
    ensures OpenIds(Step(issues, op)) - {op.id} == OpenIds(issues) - {op.id}
    ensures op.id in OpenIds(Step(issues, op)) <==> OpenAfter(op, op.id in OpenIds(issues))
  {
    hide IdFromTitle, ColonFree, Title, Prefix;
    PageIsComplete(issues, ids);
    if op.id in OpenIds(issues) {
      OpenIdIsFound(issues, op.id);
    }
    if op.EnsureOp? {
      EnsureSets(issues, op);
    } else {
      CloseSets(issues, op);
    }
  }

  lemma FoundIsItsId(issues: seq<Issue>, id: string)
    requires AllRaised(issues) && ColonFree(id) && FirstMatch(Page(issues), Prefix(id)) < |Page(issues)|
    ensures var n := Page(issues)[FirstMatch(Page(issues), Prefix(id))].number;
      n < |issues| && issues[n].Tracked() && IdFromTitle(issues[n].title) == id
    ensures id in OpenIds(issues)
  {
    hide IdFromTitle;
    var k := FirstMatch(Page(issues), Prefix(id));
    PageEntry(issues, k);
    PrefixFindsItsId(id, Page(issues)[k].title);
  }

  lemma EnsureSets(issues: seq<Issue>, op: Op)
    requires op.EnsureOp? && AllRaised(issues) && ColonFree(op.id)
    ensures OpenIds(Step(issues, op)) - {op.id} == OpenIds(issues) - {op.id}
    ensures op.id in OpenIds(Step(issues, op)) <==> op.id in OpenIds(issues) || Effective(op)
  {
    hide OpenIds;
    if op.list.Good? {
      if FirstMatch(Page(issues), Prefix(op.id)) < |Page(issues)| {
        FoundIsItsId(issues, op.id);
      } else {
        AddOpensId(issues, op.id, op.description);
      }
    }
  }

  lemma CloseSets(issues: seq<Issue>, op: Op)
    requires op.CloseOp? && AllRaised(issues) && OnePerId(issues) && ColonFree(op.id)
    requires op.id in OpenIds(issues) ==> FirstMatch(Page(issues), Prefix(op.id)) < |Page(issues)|
    ensures OpenIds(Step(issues, op)) - {op.id} == OpenIds(issues) - {op.id}
    ensures op.id in OpenIds(Step(issues, op)) <==> op.id in OpenIds(issues) && !Effective(op)
  {
    hide OpenIds, OnePerId;
    if op.list.Good? {
      var k := FirstMatch(Page(issues), Prefix(op.id));
      if k < |Page(issues)| {
        FoundIsItsId(issues, op.id);
        CloseDropsId(issues, Page(issues)[k].number);
      }
    }
  }

  // ---- Whole runs ----

  lemma {:induction false} RunKeepsTidy(issues: seq<Issue>, ops: seq<Op>, ids: set<string>)
    requires Tidy(issues, ids) && |ids| <= PER_PAGE
    requires forall op :: op in ops ==> op.id in ids && ColonFree(op.id)
    ensures Tidy(Run(issues, ops), ids)
    decreases |ops|
  {
    hide Tidy, Step;
    if ops != [] {
      StepKeepsTidy(issues, ops[0], ids);
      RunKeepsTidy(Step(issues, ops[0]), ops[1..], ids);
    }
  }

  /** An ID no step of the run is about stays open or closed. */
  lemma {:induction false} OtherIdsStay(issues: seq<Issue>, ops: seq<Op>, ids: set<string>, id: string)
    requires Tidy(issues, ids) && |ids| <= PER_PAGE
    requires forall op :: op in ops ==> op.id in ids && ColonFree(op.id)
    requires forall op :: op in ops ==> op.id != id
    ensures id in OpenIds(Run(issues, ops)) <==> id in OpenIds(issues)
    decreases |ops|
  {
    hide Tidy, Step, OpenIds;
    if ops != [] {
      StepKeepsTidy(issues, ops[0], ids);
      StepSetsItsId(issues, ops[0], ids);
      OtherIdsStay(Step(issues, ops[0]), ops[1..], ids, id);
      assert id in OpenIds(issues) - {ops[0].id} <==> id in OpenIds(issues);
    }
  }

  lemma {:induction false} RunSplits(issues: seq<Issue>, a: seq<Op>, b: seq<Op>)
    ensures Run(issues, a + b) == Run(Run(issues, a), b)
    decreases |a|
  {
    hide Step;
    if a == [] {
      assert a + b == b;
    } else {
      RunSplits(Step(issues, a[0]), a[1..], b);
      assert (a + b)[1..] == a[1..] + b;
    }
  }

  /** Whatever happens before it and to other IDs after it, the last step on an ID decides, if it is
      effective, whether the ID ends open. */
  lemma LastStepDecides(issues: seq<Issue>, before: seq<Op>, op: Op, after: seq<Op>, ids: set<string>)
    requires Tidy(issues, ids) && |ids| <= PER_PAGE
    requires forall o :: o in before + [op] + after ==> o.id in ids && ColonFree(o.id)
    requires Effective(op) && forall o :: o in after ==> o.id != op.id
    ensures op.id in OpenIds(Run(issues, before + [op] + after)) <==> op.EnsureOp?
  {
    hide Tidy, Step, OpenIds;
    var ops := before + [op] + after;
    assert forall o :: o in before || o == op || o in after ==> o in ops;
    RunSplits(issues, before + [op], after);
    RunSplits(issues, before, [op]);
    var mid := Run(issues, before);
    RunKeepsTidy(issues, before, ids);
    StepKeepsTidy(mid, op, ids);
    StepSetsItsId(mid, op, ids);
    assert [op][1..] == [];
    assert Run(mid, [op]) == Step(mid, op);
    OtherIdsStay(Step(mid, op), after, ids, op.id);
  }

  // ---- A sweep's steps on one repo ----

  /** The fates of the two calls that one settled check makes on the tracker. */
  type Fates = (Job, nat) -> (Fate, Fate)

  /** What a settled check asks of the tracker: an open issue if it fails, none if it passes. */
  function JobOp(inp: Inputs, j: Job, attempt: nat, description: string, fates: Fates): Op {
    if AskOf(inp, j, attempt) != RaiseIssue
    then CloseOp(j.id, fates(j, attempt).0, fates(j, attempt).1)
    else EnsureOp(j.id, description, fates(j, attempt).0, fates(j, attempt).1)
  }

  /** The check asks the tracker for something: it is settled, and the sweep runs in production. */
  predicate Asks(inp: Inputs, c: (Job, nat), repo: string) {
    AskOf(inp, c.0, c.1) != NoAsk && c.0.repo == repo && !inp.Errs(c.0, c.1)
  }

  /** The tracker steps on one repo that the checks run so far lead to, in the order they were run. */
  function OpsOf(inp: Inputs, calls: seq<(Job, nat)>, repo: string, descriptions: string -> string, fates: Fates): seq<Op> {
    if calls == [] then []
    else
      var (j, attempt) := calls[0];
      (if Asks(inp, calls[0], repo) then [JobOp(inp, j, attempt, descriptions(j.id), fates)] else [])
      + OpsOf(inp, calls[1..], repo, descriptions, fates)
  }

  /** All steps of a sweep, also of one that is cut short. */
  function SweepOps(inp: Inputs, repo: string, descriptions: string -> string, fates: Fates): seq<Op> {
    OpsOf(inp, SweepSpec(inp).2, repo, descriptions, fates)
  }

  lemma {:induction false} OpsAre(inp: Inputs, calls: seq<(Job, nat)>, repo: string, descriptions: string -> string, fates: Fates, op: Op)
    ensures op in OpsOf(inp, calls, repo, descriptions, fates) <==>
      exists c :: c in calls && Asks(inp, c, repo) && op == JobOp(inp, c.0, c.1, descriptions(c.0.id), fates)
  {
    hide JobOp;
    if calls != [] {
      OpsAre(inp, calls[1..], repo, descriptions, fates, op);
      assert calls == [calls[0]] + calls[1..];
    }
  }

  /** A check is run a second time only after its first run erred. */
  predicate InOrder(inp: Inputs, c: (Job, nat)) {
    c.1 == 0 || (c.1 == 1 && inp.Errs(c.0, 0))
  }

  lemma {:induction false} RunJobsCalls(inp: Inputs, jobs: seq<Job>, attempt: nat, p: Pass)
    ensures RunJobs(inp, jobs, attempt, p).calls == p.calls + Calls(jobs, attempt)
    ensures attempt == 0 ==> forall j :: j in RunJobs(inp, jobs, attempt, p).pending ==> j in p.pending || inp.Errs(j, 0)
    decreases |jobs|
  {
    if jobs != [] {
      RunJobsCalls(inp, jobs[1..], attempt, RunJob(inp, jobs[0], attempt, p));
    }
  }

  lemma {:induction false} CallsHave(jobs: seq<Job>, attempt: nat, c: (Job, nat))
    ensures c in Calls(jobs, attempt) <==> c.0 in jobs && c.1 == attempt
  {
    if jobs != [] {
      CallsHave(jobs[1..], attempt, c);
      assert jobs == [jobs[0]] + jobs[1..];
    }
  }

  lemma {:induction false} FirstPassCalls(inp: Inputs, repos: seq<Repo>, p: Pass)
    ensures forall c :: c in FirstPass(inp, repos, p).0.calls ==> c in p.calls || c.1 == 0
    ensures forall j :: j in FirstPass(inp, repos, p).0.pending ==> j in p.pending || inp.Errs(j, 0)
    decreases |repos|
  {
    hide RunJobs, ScopeFrom;
    if repos != [] {
      var jobs := ScopeFrom(inp, repos[0].name, inp.conventions);
      var q := RunJobs(inp, jobs, 0, p);
      RunJobsCalls(inp, jobs, 0, p);
      forall c | c in Calls(jobs, 0) ensures c.1 == 0 {
        CallsHave(jobs, 0, c);
      }
      FirstPassCalls(inp, repos[1..], p);
      FirstPassCalls(inp, repos[1..], q);
    }
  }

  lemma SweepCallsInOrder(inp: Inputs, c: (Job, nat))
    requires c in SweepSpec(inp).2
    ensures InOrder(inp, c)
  {
    hide RunJobs, FirstPass;
    FirstPassCalls(inp, inp.repos, FRESH);
    var p := FirstPass(inp, inp.repos, FRESH).0;
    RunJobsCalls(inp, p.pending, 1, p);
    CallsHave(p.pending, 1, c);
  }

  /** The check's final attempt was made and settled it. */
  predicate SettledIn(inp: Inputs, j: Job) {
    (j, FinalAttempt(inp, j)) in SweepSpec(inp).2 && Settled(inp, j)
  }

  /** Which checks a sweep that reaches its end settles. */
  lemma RunExactly(inp: Inputs, j: Job)
    requires ReachesEnd(inp)
    ensures SettledIn(inp, j) <==> j in InScope(inp, inp.repos) && inp.upsertOk(j.repo) && Settled(inp, j)
  {
    hide RunJobs, FirstPass, InScope;
    var jobs, a := Jobs(inp, inp.repos), FinalAttempt(inp, j);
    SweepSummary(inp);
    JobsExactly(inp, inp.repos, j);
    SelectExactly(inp, Deferred, jobs, j);
    CallsHave(jobs, 0, (j, a));
    CallsHave(Select(inp, Deferred, jobs), 1, (j, a));
  }

  /** op is what the check's final attempt asks for. */
  predicate OpFor(inp: Inputs, j: Job, descriptions: string -> string, fates: Fates, op: Op) {
    inp.production && SettledIn(inp, j) && op == JobOp(inp, j, FinalAttempt(inp, j), descriptions(j.id), fates)
  }

  /** Every step on an ID is that of its check's final attempt. */
  lemma SweepOpsAre(inp: Inputs, repo: string, descriptions: string -> string, fates: Fates, op: Op)
    ensures op in SweepOps(inp, repo, descriptions, fates) <==> OpFor(inp, Job(repo, op.id), descriptions, fates, op)
  {
    hide SweepSpec;
    var calls := SweepSpec(inp).2;
    OpsAre(inp, calls, repo, descriptions, fates, op);
    forall c | c in calls ensures InOrder(inp, c) {
      SweepCallsInOrder(inp, c);
    }
    if op in SweepOps(inp, repo, descriptions, fates) {
      var c :| c in calls && Asks(inp, c, repo) && op == JobOp(inp, c.0, c.1, descriptions(c.0.id), fates);
      assert c == (Job(repo, op.id), FinalAttempt(inp, Job(repo, op.id)));
    }
  }

  /** Where all steps on an ID are the same one, that step decides, however often it is made. */
  lemma {:induction false} SameStepDecides(issues: seq<Issue>, ops: seq<Op>, ids: set<string>, mine: Op)
    requires Tidy(issues, ids) && |ids| <= PER_PAGE
    requires forall op :: op in ops ==> op.id in ids && ColonFree(op.id)
    requires forall op :: op in ops && op.id == mine.id ==> op == mine
    ensures mine.id in OpenIds(Run(issues, ops)) <==>
            if mine in ops then OpenAfter(mine, mine.id in OpenIds(issues)) else mine.id in OpenIds(issues)
    decreases |ops|
  {
    hide Tidy, Step, OpenIds, Effective;
    if ops != [] {
      assert ops == [ops[0]] + ops[1..];
      StepKeepsTidy(issues, ops[0], ids);
      StepSetsItsId(issues, ops[0], ids);
      SameStepDecides(Step(issues, ops[0]), ops[1..], ids, mine);
      assert mine.id != ops[0].id ==> (mine.id in OpenIds(issues) - {ops[0].id} <==> mine.id in OpenIds(issues));
    }
  }

  /** After a sweep over a tidy repo, whatever it returned and whatever its tracker calls met: in
      production, the issue of a failing check it settled is open if it was open or the Ensure took
      effect, and that of a passing one if it was open and the Close did not; no ID has two issues; and an
      ID of no settled check, or any ID outside production, is open exactly if it was. */
  lemma OpenIssuesExactly(inp: Inputs, repo: string, issues: seq<Issue>, ids: set<string>,
      descriptions: string -> string, fates: Fates, id: string)
    requires Tidy(issues, ids) && |ids| <= 100
    requires forall c :: c in SweepSpec(inp).2 && c.0.repo == repo ==> c.0.id in ids && ColonFree(c.0.id)
    ensures var j := Job(repo, id);
      var after, attempt := Run(issues, SweepOps(inp, repo, descriptions, fates)), FinalAttempt(inp, j);
      var effective := Effective(JobOp(inp, j, attempt, descriptions(id), fates));
      && OnePerId(after)
      && (id in OpenIds(after) <==>
            if !inp.production || !SettledIn(inp, j) then id in OpenIds(issues)
            else if inp.CheckOf(j, attempt).pass then id in OpenIds(issues) && !effective
            else id in OpenIds(issues) || effective)
  {
    hide SweepSpec, SweepOps, Tidy, OpenIds, Run, Effective;
    var j := Job(repo, id);
    var ops := SweepOps(inp, repo, descriptions, fates);
    forall o ensures o in ops <==> OpFor(inp, Job(repo, o.id), descriptions, fates, o) {
      SweepOpsAre(inp, repo, descriptions, fates, o);
    }
    RunsNeverDuplicate(issues, ops, ids);
    SameStepDecides(issues, ops, ids, JobOp(inp, j, FinalAttempt(inp, j), descriptions(id), fates));
  }

  // ---- What a sweep's result says about the tracker ----

  /** The answers the sweep was given are those of the tracker's steps. */
  ghost predicate Answered(inp: Inputs, issues: seq<Issue>, calls: seq<(Job, nat)>, repo: string,
      descriptions: string -> string, fates: Fates)
    decreases |calls|
  {
    if calls == [] then true
    else if !Asks(inp, calls[0], repo) then Answered(inp, issues, calls[1..], repo, descriptions, fates)
    else
      var (j, attempt) := calls[0];
      var op := JobOp(inp, j, attempt, descriptions(j.id), fates);
      && (if op.EnsureOp?
          then inp.ensureIssue(repo, j.id) == EnsureStep(issues, op.id, op.description, op.list, op.write).1
          else inp.closeIssue(repo, j.id) == CloseStep(issues, op.id, op.list, op.write).1)
      && Answered(inp, Step(issues, op), calls[1..], repo, descriptions, fates)
  }

  /** No step but a Close of its own ID touches an open issue. */
  lemma StepKeepsIssue(issues: seq<Issue>, op: Op, n: nat, id: string)
    requires AllRaised(issues) && ColonFree(op.id) && IsOpenIssue(issues, n, id)
    requires op.EnsureOp? || op.id != id
    ensures IsOpenIssue(Step(issues, op), n, id)
  {
    hide IdFromTitle;
    if op.CloseOp? && op.list.Good? && FirstMatch(Page(issues), Prefix(op.id)) < |Page(issues)| {
      FoundIsItsId(issues, op.id);
    }
  }

  /** The issue that the tracker names for a failing check stays open through the rest of the sweep. */
  lemma {:induction false} NamedStaysOpen(inp: Inputs, issues: seq<Issue>, calls: seq<(Job, nat)>, repo: string,
      descriptions: string -> string, fates: Fates, ids: set<string>, j: Job, n: nat)
    requires Tidy(issues, ids) && |ids| <= PER_PAGE && inp.production && j.repo == repo
    requires forall c :: c in calls && c.0.repo == repo ==> c.0.id in ids && ColonFree(c.0.id)
    requires forall c :: c in calls ==> InOrder(inp, c)
    requires Answered(inp, issues, calls, repo, descriptions, fates)
    requires Settled(inp, j) && !inp.CheckOf(j, FinalAttempt(inp, j)).pass
    requires IsOpenIssue(issues, n, j.id) || ((j, FinalAttempt(inp, j)) in calls && inp.ensureIssue(repo, j.id) == Url(n))
    ensures IsOpenIssue(Run(issues, OpsOf(inp, calls, repo, descriptions, fates)), n, j.id)
    decreases |calls|
  {
    hide Tidy, Step, EnsureStep, CloseStep, IsOpenIssue;
    if calls != [] {
      var c := calls[0];
      assert calls == [c] + calls[1..];
      var rest := OpsOf(inp, calls[1..], repo, descriptions, fates);
      if !Asks(inp, c, repo) {
        assert OpsOf(inp, calls, repo, descriptions, fates) == rest;
        NamedStaysOpen(inp, issues, calls[1..], repo, descriptions, fates, ids, j, n);
      } else {
        var op := JobOp(inp, c.0, c.1, descriptions(c.0.id), fates);
        assert OpsOf(inp, calls, repo, descriptions, fates) == [op] + rest;
        assert ([op] + rest)[1..] == rest;
        StepKeepsTidy(issues, op, ids);
        TidyIsRaised(issues, ids);
        if IsOpenIssue(issues, n, j.id) {
          StepKeepsIssue(issues, op, n, j.id);
        } else if c.0 == j && op.EnsureOp? && inp.ensureIssue(repo, j.id) == Url(n) {
          StepNames(issues, op, n);
        }
        NamedStaysOpen(inp, Step(issues, op), calls[1..], repo, descriptions, fates, ids, j, n);
      }
    }
  }

  lemma StepNames(issues: seq<Issue>, op: Op, n: nat)
    requires AllRaised(issues) && op.EnsureOp? && ColonFree(op.id)
    requires EnsureStep(issues, op.id, op.description, op.list, op.write).1 == Url(n)
    ensures IsOpenIssue(Step(issues, op), n, op.id)
  {
    EnsureNamesItsIssue(issues, op.id, op.description, op.list, op.write);
  }

  lemma TidyIsRaised(issues: seq<Issue>, ids: set<string>)
    requires Tidy(issues, ids)
    ensures AllRaised(issues)
  {
  }

  /** A sweep that returns nil ran the final attempt of every in-scope check of a recorded repo, and no
      issue call of a failing one ended in an error other than unavailable issues. */
  lemma NilMeansAsked(inp: Inputs, j: Job)
    requires SweepSpec(inp).0 == Nil && j in InScope(inp, inp.repos) && inp.upsertOk(j.repo)
    ensures SettledIn(inp, j) && !EnsureFails(inp, j, FinalAttempt(inp, j))
  {
    hide RunJobs, FirstPass, InScope, Jobs;
    SuccessReachesEnd(inp);
    SuccessSettles(inp, j);
    RunExactly(inp, j);
    SweepSummary(inp);
    var jobs := Jobs(inp, inp.repos);
    JobsExactly(inp, inp.repos, j);
    SelectExactly(inp, UnraisedFirst, jobs, j);
    SelectExactly(inp, UnraisedInTail, jobs, j);
  }

  /** The issue saved with a settled check's finding, after any sweep: there is one exactly for a failing
      check, in production, that the tracker named an issue for; and it is that check's own issue on that
      repo, still open. */
  lemma SavedIssueIsOpen(inp: Inputs, issues: seq<Issue>, ids: set<string>, descriptions: string -> string,
      fates: Fates, j: Job)
    requires SettledIn(inp, j) && Tidy(issues, ids) && |ids| <= PER_PAGE
    requires forall c :: c in SweepSpec(inp).2 && c.0.repo == j.repo ==> c.0.id in ids && ColonFree(c.0.id)
    requires Answered(inp, issues, SweepSpec(inp).2, j.repo, descriptions, fates)
    ensures var row := FinalSave(inp, j).row;
      && (row.issue.Some? <==> inp.production && !row.pass && inp.ensureIssue(j.repo, j.id).Url?)
      && (row.issue.Some? ==> IsOpenIssue(Run(issues, SweepOps(inp, j.repo, descriptions, fates)), row.issue.value, j.id))
  {
    hide SweepSpec, Tidy, Run, IsOpenIssue, OpsOf;
    var calls := SweepSpec(inp).2;
    forall c | c in calls ensures InOrder(inp, c) {
      SweepCallsInOrder(inp, c);
    }
    if inp.production && !inp.CheckOf(j, FinalAttempt(inp, j)).pass && inp.ensureIssue(j.repo, j.id).Url? {
      NamedStaysOpen(inp, issues, calls, j.repo, descriptions, fates, ids, j, inp.ensureIssue(j.repo, j.id).number);
    }
  }

  /** After a sweep in production that returns nil, every failing in-scope check of a recorded repo has an
      open issue of its own, the one its finding names, unless issues are unavailable on its repo. */
  lemma NilRaisesEveryFailure(inp: Inputs, issues: seq<Issue>, ids: set<string>, descriptions: string -> string,
      fates: Fates, j: Job)
    requires SweepSpec(inp).0 == Nil && inp.production && Tidy(issues, ids) && |ids| <= PER_PAGE
    requires forall c :: c in SweepSpec(inp).2 && c.0.repo == j.repo ==> c.0.id in ids && ColonFree(c.0.id)
    requires Answered(inp, issues, SweepSpec(inp).2, j.repo, descriptions, fates)
    requires j in InScope(inp, inp.repos) && inp.upsertOk(j.repo) && !inp.CheckOf(j, FinalAttempt(inp, j)).pass
    ensures var issue := FinalSave(inp, j).row.issue;
      || inp.ensureIssue(j.repo, j.id).IssuesUnavailable?
      || (issue.Some? && IsOpenIssue(Run(issues, SweepOps(inp, j.repo, descriptions, fates)), issue.value, j.id))
  {
    hide SweepSpec, Tidy, Run, InScope, FinalAttempt, IsOpenIssue;
    NilMeansAsked(inp, j);
    AnsweredIsNotNothing(inp, issues, SweepSpec(inp).2, j.repo, descriptions, fates, j);
    SavedIssueIsOpen(inp, issues, ids, descriptions, fates, j);
  }

  /** An Ensure step names an issue or fails in one of the two ways. */
  lemma {:induction false} AnsweredIsNotNothing(inp: Inputs, issues: seq<Issue>, calls: seq<(Job, nat)>, repo: string,
      descriptions: string -> string, fates: Fates, j: Job)
    requires Answered(inp, issues, calls, repo, descriptions, fates) && inp.production && j.repo == repo
    requires (j, FinalAttempt(inp, j)) in calls && Settled(inp, j) && !inp.CheckOf(j, FinalAttempt(inp, j)).pass
    ensures !inp.ensureIssue(repo, j.id).Nothing?
    decreases |calls|
  {
    var c := calls[0];
    assert calls == [c] + calls[1..];
    if c != (j, FinalAttempt(inp, j)) {
      hide EnsureStep, Step;
      var next := if Asks(inp, c, repo) then Step(issues, JobOp(inp, c.0, c.1, descriptions(c.0.id), fates)) else issues;
      AnsweredIsNotNothing(inp, next, calls[1..], repo, descriptions, fates, j);
    }
  }
}
