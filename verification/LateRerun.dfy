/** Reruns that take their stamp before a sweep starts and commit during it. */
module LateRerun {
  import opened Findings
  import opened IssueTracker
  import opened SmallFleet
  import opened Sweep
  import opened SweepTable

  /** k was last saved with a stamp from before the cutoff. */
  ghost predicate LastSavedBefore(log: seq<Event>, k: Key, cutoff: int) {
    Saves(log, k) && LastSaved(log, k).value.updatedAt < cutoff
  }

  /** After a successful sweep, with the statements of any reruns before and after its purge, a key that
      the sweep wrote is missing if and only if it is not saved after the purge and the last save before
      it has a stamp from before the sweep's start; such a save is a rerun's. */
  lemma WrittenRowLostExactlyWhen(inp: Inputs, rows: map<Key, Row>, a: seq<Event>, b: seq<Event>, j: Job, k: Key)
    requires SweepSpec(inp).0 == Nil && ClockFrom(inp) && Writes(inp, j, k)
    requires PurgeFree(a) && PurgeFree(b)
    requires BySweep(a + [Purge(inp.start)] + b) == SweepSpec(inp).1
    ensures var log := a + [Purge(inp.start)] + b;
      && (k !in Replay(rows, log) <==> !Saves(b, k) && LastSavedBefore(a, k, inp.start))
      && (LastSavedBefore(a, k, inp.start) ==>
            exists e :: e in Reruns(log) && e.Save? && e.key == k && e.row.updatedAt < inp.start)
  {
    hide SweepSpec, Writes, BySweep, Reruns, RowFor, Replay, FinalKey;
    var log := a + [Purge(inp.start)] + b;
    SuccessReachesEnd(inp);
    ReachedWrites(inp, j, k);
    SplitMembers(log, FinalSave(inp, j));
    PurgeInTheMiddle(rows, a, inp.start, b, k);
    SavesExactly(a, k);
    SavesExactly(b, k);
    if LastSavedBefore(a, k, inp.start) {
      var e :| e in a && e.Save? && e.key == k && e.row == LastSaved(a, k).value;
      SplitMembers(log, e);
      if e in SweepSpec(inp).1 {
        SweepWritesOwn(inp, e);
        StampedFrom(inp, e);
      }
    }
  }

  /** A family: a nil sweep saves the row of its one check, a rerun that took its stamp earlier commits
      after it, and the purge takes the row away. */
  lemma LateStampLosesRow(id: string, late: Row)
    requires late.updatedAt < START
    ensures var inp := Fleet(id, CheckResult(id, true, "", false), false, Nothing);
            var j, k := Job(REPO, id), (REPO, id);
            var log := [FinalSave(inp, j), Save(k, late, false), Purge(START)];
            && SweepSpec(inp).0 == Nil && j in InScope(inp, inp.repos) && BySweep(log) == SweepSpec(inp).1
            && k in Replay(map[], log[..2]) && k !in Replay(map[], log)
  {
    var inp, j, k := Fleet(id, CheckResult(id, true, "", false), false, Nothing), Job(REPO, id), (REPO, id);
    FleetScope(id, CheckResult(id, true, "", false), false, Nothing);
    FleetSweep(id, id, false, Nothing);
    hide SweepSpec, InScope, RowFor;
    var own := FinalSave(inp, j);
    LateLog(own, k, late);
  }

  lemma LateLog(own: Event, k: Key, late: Row)
    requires own.Save? && own.bySweep && own.key == k && late.updatedAt < START
    ensures var log := [own, Save(k, late, false), Purge(START)];
            BySweep(log) == [own, Purge(START)] && k in Replay(map[], log[..2]) && k !in Replay(map[], log)
  {
    var two, log := [own, Save(k, late, false)], [own, Save(k, late, false), Purge(START)];
    assert log[..2] == two && two[..1] == [own] && [own][..0] == [];
    assert log == two + [Purge(START)] + [];
    assert BySweep([own]) == [own] && BySweep(two) == [own];
    PurgeInTheMiddle(map[], two, START, [], k);
    ReplayAt(map[], two, k);
  }
}
