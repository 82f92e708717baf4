/** A fleet of two repos and one convention that applies to the first of them only, for concrete cases. */
module SmallFleet {
  import opened Findings
  import opened IssueTracker
  import opened Sweep
  import opened SweepResults
  import opened SweepTable

  const REPO: string := "lucas42/lucos_repos"
  const OTHER: string := "lucas42/notes"
  const START: int := 2

  /** Every call succeeds but for the close of an issue, which ends as given. */
  function Fleet(id: string, result: CheckResult, production: bool, closed: Outcome): Inputs {
    Inputs([Repo(REPO, false, false), Repo(OTHER, false, false)], map[REPO := "system"], [Convention(id, ["system"], [])],
      (repo, c, attempt) => result,
      (repo, c) => Url(0), (repo, c) => closed, production, true,
      repo => true, repo => true, key => true, true, true, (repo, c, attempt) => START + 1, START)
  }

  lemma FleetScope(id: string, result: CheckResult, production: bool, closed: Outcome)
    ensures var inp := Fleet(id, result, production, closed);
      && InScope(inp, inp.repos) == Jobs(inp, inp.repos) == [Job(REPO, id)] && ReachesEnd(inp)
    ensures REPO != OTHER
  {
    var inp := Fleet(id, result, production, closed);
    var tail := inp.repos[1..];
    assert inp.conventions[1..] == [] && tail == [Repo(OTHER, false, false)] && tail[1..] == [];
    assert |REPO| != |OTHER| && |UNCONFIGURED| != |"system"|;
    assert ScopeFrom(inp, REPO, inp.conventions) == [Job(REPO, id)];
    assert ScopeFrom(inp, OTHER, inp.conventions) == [];
    assert InScope(inp, tail) == Jobs(inp, tail) == [];
  }

  /** A passing check is settled at once, and the sweep returns nil, whatever became of the close. */
  lemma FleetSweep(id: string, reported: string, production: bool, closed: Outcome)
    ensures var inp := Fleet(id, CheckResult(reported, true, "", false), production, closed);
      SweepSpec(inp) == (Nil, [FinalSave(inp, Job(REPO, id)), Purge(START)], [(Job(REPO, id), 0)])
  {
    hide SweepSpec, Jobs, InScope, RowFor;
    var inp, j := Fleet(id, CheckResult(reported, true, "", false), production, closed), Job(REPO, id);
    FleetScope(id, CheckResult(reported, true, "", false), production, closed);
    SweepSummary(inp);
    OneJob(inp, j);
    assert [FinalSave(inp, j)] + [] + [Purge(START)] == [FinalSave(inp, j), Purge(START)];
    assert Calls([j], 0) + [] == [(j, 0)];
  }

  lemma OneJob(inp: Inputs, j: Job)
    requires !inp.Errs(j, 0) && inp.CheckOf(j, 0).pass && inp.saveOk(inp.KeyOf(j, 0))
    ensures Select(inp, Deferred, [j]) == Select(inp, IndeterminateTwice, [j]) == []
    ensures Select(inp, UnraisedFirst, [j]) == Select(inp, UnraisedInTail, [j]) == []
    ensures SavesOf(inp, [j], 0) == [FinalSave(inp, j)] && SavesOf(inp, [], 1) == []
    ensures Calls([j], 0) == [(j, 0)] && Calls([], 1) == []
  {
    hide RowFor;
    assert [j][1..] == [];
  }
}
