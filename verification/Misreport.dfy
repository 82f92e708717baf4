/** A check that reports another ID than its own, as one shipped convention does. */
module Misreport {
  import opened AuditDiff
  import opened DryRun
  import opened Findings
  import opened IssueTracker
  import opened SmallFleet
  import opened Sweep
  import opened SweepDiff
  import opened SweepResults
  import opened SweepTable

  const OWN_ID: string := "env-var-passthrough"
  const REPORTED_ID: string := "env_var_passthrough"
  const OWN_KEY: Key := (REPO, OWN_ID)
  const REPORTED_KEY: Key := (REPO, REPORTED_ID)

  /** The one convention of the fleet is that check, settled at once. */
  function OneCheck(pass: bool): Inputs {
    Fleet(OWN_ID, CheckResult(REPORTED_ID, pass, "", false), false, Nothing)
  }

  lemma OneCheckScope(pass: bool)
    ensures var inp := OneCheck(pass);
      && InScope(inp, inp.repos) == [Job(REPO, OWN_ID)] && ReachesEnd(inp) && WritesSucceed(inp)
      && (forall j :: Settled(inp, j)) && FinalKey(inp, Job(REPO, OWN_ID)) == REPORTED_KEY
      && FinalSave(inp, Job(REPO, OWN_ID)).row.pass == pass
    ensures OWN_KEY != REPORTED_KEY
  {
    hide InScope;
    FleetScope(OWN_ID, CheckResult(REPORTED_ID, pass, "", false), false, Nothing);
    assert OWN_ID[3] != REPORTED_ID[3];
  }

  /** The dry run has an entry under the check's own key and none under the reported one; for the
      sweep's findings it is the other way round. */
  lemma EntryWithoutRow(pass: bool, report: map<string, RepoStatus>)
    requires var inp := OneCheck(pass); ReportsAll(inp, inp.repos, report, Select(inp, Deferred, InScope(inp, inp.repos)))
    ensures HasEntry(report, OWN_KEY) && !HasEntry(report, REPORTED_KEY)
    ensures var own := SweepSpec(OneCheck(pass)).1; Saves(own, REPORTED_KEY) && !Saves(own, OWN_KEY)
  {
    hide OneCheck, SweepSpec, ReportsAll, HasEntry, Saves, Select, FinalKey;
    var inp := OneCheck(pass);
    OneCheckScope(pass);
    EntriesAreFinalResults(inp, report, OWN_KEY);
    EntriesAreFinalResults(inp, report, REPORTED_KEY);
    RowsFollowReportedIds(inp, OWN_KEY);
    RowsFollowReportedIds(inp, REPORTED_KEY);
    assert Writes(inp, Job(REPO, OWN_ID), REPORTED_KEY);
  }

  /** While the check fails, an unchanged registry shows it both as a new failure and as resolved. */
  lemma FailureShowsTwice(rows: map<Key, Row>, status: map<string, RepoStatus>, c: Report, d: Diff)
    requires SameAnswers(OneCheck(false), rows, status, c) && IsDiff(BaselineOf(status), c, d)
    ensures Mentions(d.newFailures, OWN_KEY) && Mentions(d.resolved, REPORTED_KEY)
  {
    hide OneCheck, SameAnswers, IsDiff, BaselineOf, InScope, Settled, FinalKey, FinalSave;
    var inp := OneCheck(false);
    OneCheckScope(false);
    FailingKeys(inp);
    DifferenceOfSameAnswers(inp, rows, status, c, d, OWN_KEY);
    DifferenceOfSameAnswers(inp, rows, status, c, d, REPORTED_KEY);
  }

  lemma FailingKeys(inp: Inputs)
    requires InScope(inp, inp.repos) == [Job(REPO, OWN_ID)] && Settled(inp, Job(REPO, OWN_ID))
    requires FinalKey(inp, Job(REPO, OWN_ID)) == REPORTED_KEY && !FinalSave(inp, Job(REPO, OWN_ID)).row.pass
    ensures FailingOwn(inp) == {OWN_KEY} && FailingReported(inp) == {REPORTED_KEY}
  {
    hide InScope, Settled, FinalKey, RowFor;
    assert Job(REPO, OWN_ID) in InScope(inp, inp.repos);
  }
}
